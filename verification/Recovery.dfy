// The progress counter as a recovery log: interrupted runs, later runs and
// newly published actions together do what the files say.

module Recovery {
  import opened Actions
  import opened ActionSort
  import opened ActionFile
  import opened Squash
  import opened Tables
  import opened Installer
  import opened PendingFacts

  ghost function CounterAfterAll(files: Table, counter: Counter): Counter {
    CounterAfter(files, counter, |Pending(files, counter)|)
  }

  lemma {:induction false} AllPerformed(files: Table, counter: Counter)
    ensures Performed(files, counter, |Pending(files, counter)|) == Pending(files, counter)
  {
  }

  // ------------------------------------------- one run, one file, one ref

  lemma {:induction false} ProgressIsGreatest(s: seq<RefAction>, a: RefAction)
    requires SerialsAscend(s) && a in s
    ensures a.source in Progress(s) && a.serial <= Progress(s)[a.source]
  {
    var u, last := s[..|s|-1], s[|s|-1];
    assert s == u + [last];
    if last.source != a.source {
      ProgressIsGreatest(u, a);
    }
  }

  lemma {:induction false} LaterSerial(todo: seq<RefAction>, done: seq<RefAction>, rest: seq<RefAction>,
                                       b: RefAction, a: RefAction)
    requires StrictlyIncreasing(todo) && SerialsAscend(done + rest) && DistinctRefs(done + rest)
    requires b in done && a in rest && a in todo && b in todo
    ensures b.serial < a.serial
  {
    var s := done + rest;
    var i :| 0 <= i < |done| && done[i] == b;
    var l :| 0 <= l < |rest| && rest[l] == a;
    assert s[i] == b && s[|done| + l] == a;
    var x, y :| 0 <= x < |todo| && 0 <= y < |todo| && todo[x] == a && todo[y] == b;
  }

  /** The greatest serial performed from a source falls between the actions of
      that source that were performed and those that were not reached. */
  lemma {:induction false} ProgressCuts(todo: seq<RefAction>, done: seq<RefAction>, rest: seq<RefAction>,
                                        source: string, a: RefAction)
    requires StrictlyIncreasing(todo) && SerialsAscend(done + rest) && DistinctRefs(done + rest)
    requires forall b :: b in done + rest && b.source == source ==> b in todo
    requires a in done + rest && a.source == source
    ensures a in done ==> source in Progress(done) && a.serial <= Progress(done)[source]
    ensures a in rest && source in Progress(done) ==> a.serial > Progress(done)[source]
  {
    if a in done {
      assert SerialsAscend(done) by {
        forall i, j | 0 <= i < j < |done| ensures done[i].serial <= done[j].serial {
          assert (done + rest)[i].serial <= (done + rest)[j].serial;
        }
      }
      ProgressIsGreatest(done, a);
    }
    ProgressIsLast(done, source);
    if a in rest && source in Progress(done) {
      var b :| b in done && b.source == source && b.serial == Progress(done)[source];
      assert b in done + rest;
      LaterSerial(todo, done, rest, b, a);
    }
  }

  lemma {:induction false} NextTodo(files: Table, counter: Counter, k: nat, name: string)
    requires LoadedFiles(files) && name in files && k <= |Pending(files, counter)|
    ensures Todo(files, CounterAfter(files, counter, k))[name]
         == NewActions(name, Todo(files, counter)[name], Progress(Performed(files, counter, k)))
  {
    var progress := Progress(Performed(files, counter, k));
    ProgressIsLast(Performed(files, counter, k), name);
    if name in progress && name in counter {
      var b :| b in Performed(files, counter, k) && b.source == name && b.serial == progress[name];
      assert b in Pending(files, counter);
      PendingOf(files, counter, b);
      NewIncreases(name, files[name], counter);
      DropTwice(files[name], counter[name], progress[name]);
    }
  }

  /** After a run, a ref is either done with, so that what is left about it
      changes nothing, or untouched with as much meaning left as before. */
  ghost predicate DoneOrWaiting(todo: Verdict, done: Verdict, left: Verdict) {
    || (done == todo && todo.Then(left) == todo)
    || (done == Untouched && left == todo)
  }

  lemma {:induction false} KeeperDoneOrWaiting(before: seq<RefAction>, after: seq<RefAction>,
                                               done: seq<RefAction>, rest: seq<RefAction>, q: RefAction)
    requires Keeper(before + after, q.ref) == Keep(q) && DistinctRefs(done + rest) && q in done + rest
    requires q in done ==> q !in after
    requires q in rest ==> q !in before
    ensures DoneOrWaiting(VerdictOf(before + after, q.ref), VerdictOf(done, q.ref), VerdictOf(after, q.ref))
  {
    KeeperVerdict(before + after, q.ref);
    if q in done {
      FrontDistinct(done, rest);
      VerdictOfDistinct(done, q);
      AfterKeeper(before, after, q);
    } else {
      BeforeKeeper(before, after, q);
      NotMentionedBefore(done, rest, q);
      UnmentionedUntouched(done, q.ref);
    }
  }

  lemma {:induction false} FrontDistinct(done: seq<RefAction>, rest: seq<RefAction>)
    requires DistinctRefs(done + rest)
    ensures DistinctRefs(done)
  {
    forall i, j | 0 <= i < j < |done| ensures done[i].ref != done[j].ref {
      assert (done + rest)[i].ref != (done + rest)[j].ref;
    }
  }

  lemma {:induction false} NotMentionedBefore(done: seq<RefAction>, rest: seq<RefAction>, q: RefAction)
    requires DistinctRefs(done + rest) && q in rest
    ensures !Mentions(done, q.ref)
  {
    var l :| 0 <= l < |rest| && rest[l] == q;
    forall i | 0 <= i < |done| ensures done[i].ref != q.ref {
      assert (done + rest)[i].ref != (done + rest)[|done| + l].ref;
    }
  }

  lemma {:induction false} PendingFromSoleFile(files: Table, counter: Counter, name: string, a: RefAction)
    requires GoodFiles(files) && OnlyIn(files, name, a.ref) && a in Pending(files, counter)
    ensures a.source == name && name in files && a in Todo(files, counter)[name]
  {
    PendingOf(files, counter, a);
    assert Mentions(files[a.source], a.ref);
  }

  lemma {:induction false} TodoAndPending(files: Table, counter: Counter, name: string)
    requires LoadedFiles(files) && name in files
    ensures forall a :: a in Pending(files, counter) && a.source == name ==> a in Todo(files, counter)[name]
    ensures forall a :: a in Todo(files, counter)[name] ==> a.source == name
  {
    forall a | a in Pending(files, counter) && a.source == name ensures a in Todo(files, counter)[name] {
      PendingOf(files, counter, a);
    }
    forall a | a in Todo(files, counter)[name] ensures a.source == name {
      TodoSource(files, counter, name, a);
    }
  }

  /** The actions of a file that a run leaves to do, and those it puts behind
      the counter. */
  lemma {:induction false} RunCuts(files: Table, counter: Counter, k: nat, name: string)
    returns (before: seq<RefAction>)
    requires LoadedFiles(files) && name in files && k <= |Pending(files, counter)|
    ensures Todo(files, counter)[name] == before + Todo(files, CounterAfter(files, counter, k))[name]
    ensures forall a :: a in before && a in Pending(files, counter) ==> a in Performed(files, counter, k)
    ensures forall a :: a in Todo(files, CounterAfter(files, counter, k))[name] ==> a !in Performed(files, counter, k)
    ensures before != [] ==> before[|before| - 1] in Performed(files, counter, k)
  {
    var s := Pending(files, counter);
    SplitAt(s, k);
    NextTodo(files, counter, k, name);
    NewIncreases(name, files[name], counter);
    PendingAscends(files, counter);
    TodoAndPending(files, counter, name);
    before := CutByProgress(Todo(files, counter)[name], s, Performed(files, counter, k), s[k..], name);
  }

  lemma {:induction false} CutByProgress(todo: seq<RefAction>, s: seq<RefAction>, done: seq<RefAction>,
                                         rest: seq<RefAction>, name: string)
    returns (before: seq<RefAction>)
    requires StrictlyIncreasing(todo) && SerialsAscend(s) && DistinctRefs(s) && s == done + rest
    requires forall a :: a in s && a.source == name ==> a in todo
    requires forall a :: a in todo ==> a.source == name
    ensures todo == before + NewActions(name, todo, Progress(done))
    ensures forall a :: a in before && a in s ==> a in done
    ensures forall a :: a in NewActions(name, todo, Progress(done)) ==> a !in done
    ensures before != [] ==> before[|before| - 1] in done
  {
    var after := NewActions(name, todo, Progress(done));
    before := ExistingActions(name, todo, Progress(done));
    FiltersPartition(name, todo, Progress(done));
    ProgressIsLast(done, name);
    if name in Progress(done) {
      DropCuts(todo, Progress(done)[name]);
    }
    forall a | a in before && a in done + rest ensures a in done {
      assert a in todo;
      ProgressCuts(todo, done, rest, name, a);
    }
    forall a | a in after ensures a !in done {
      assert a in todo;
      if a in done {
        assert a in done + rest;
        ProgressCuts(todo, done, rest, name, a);
      }
    }
    if before != [] {
      var b :| b in done && b.source == name && b.serial == Progress(done)[name];
      assert b in done + rest;
      LastBefore(before, after, b, Progress(done)[name]);
    }
  }

  lemma {:induction false} LastBefore(before: seq<RefAction>, after: seq<RefAction>, b: RefAction, progress: int32)
    requires StrictlyIncreasing(before + after) && CutsAt(before + after, before, after, progress)
    requires b in before + after && b.serial == progress
    ensures before != [] && before[|before| - 1] == b
  {
    assert b in before;
    var i :| 0 <= i < |before| && before[i] == b;
    assert before[|before| - 1] in before;
    PartsIncrease(before, after);
  }

  lemma {:induction false} RunOnRef(files: Table, counter: Counter, k: nat, name: string, r: Ref)
    requires GoodFiles(files) && name in files && OnlyIn(files, name, r) && k <= |Pending(files, counter)|
    ensures DoneOrWaiting(VerdictOf(Todo(files, counter)[name], r),
                          VerdictOf(Performed(files, counter, k), r),
                          VerdictOf(Todo(files, CounterAfter(files, counter, k))[name], r))
  {
    var todo, left := Todo(files, counter)[name], Todo(files, CounterAfter(files, counter, k))[name];
    var s, done := Pending(files, counter), Performed(files, counter, k);
    var before := RunCuts(files, counter, k, name);
    if Keeper(todo, r).Nothing? {
      KeeperExists(todo, r);
      DoneUnmentioned(files, counter, k, name, r);
    } else {
      KeeperIsPending(files, counter, name, r);
    }
    PendingAscends(files, counter);
    SplitAt(s, k);
    CutOnRef(todo, before, left, s, done, s[k..], r);
  }

  lemma {:induction false} CutOnRef(todo: seq<RefAction>, before: seq<RefAction>, left: seq<RefAction>,
                                    s: seq<RefAction>, done: seq<RefAction>, rest: seq<RefAction>, r: Ref)
    requires todo == before + left && s == done + rest && DistinctRefs(s)
    requires forall a :: a in before && a in s ==> a in done
    requires forall a :: a in left ==> a !in done
    requires Keeper(todo, r).Keep? ==> Keeper(todo, r).action in s
    requires Keeper(todo, r).Nothing? ==> VerdictOf(done, r) == Untouched
    ensures DoneOrWaiting(VerdictOf(todo, r), VerdictOf(done, r), VerdictOf(left, r))
  {
    KeeperVerdict(todo, r);
    if Keeper(todo, r).Nothing? {
      VerdictConcat(before, left, r);
    } else {
      var q := Keeper(todo, r).action;
      if q in rest {
        NotMentionedBefore(done, rest, q);
      }
      KeeperDoneOrWaiting(before, left, done, rest, q);
    }
  }

  lemma {:induction false} DoneUnmentioned(files: Table, counter: Counter, k: nat, name: string, r: Ref)
    requires GoodFiles(files) && OnlyIn(files, name, r) && k <= |Pending(files, counter)|
    requires name in files ==> !Mentions(Todo(files, counter)[name], r)
    ensures VerdictOf(Performed(files, counter, k), r) == Untouched
  {
    forall a | a in Performed(files, counter, k) ensures a.ref != r {
      assert a in Pending(files, counter);
      if a.ref == r {
        PendingFromSoleFile(files, counter, name, a);
      }
    }
    UnmentionedUntouched(Performed(files, counter, k), r);
  }

  lemma {:induction false} KeeperIsPending(files: Table, counter: Counter, name: string, r: Ref)
    requires GoodFiles(files) && name in files && Keeper(Todo(files, counter)[name], r).Keep?
    ensures Keeper(Todo(files, counter)[name], r).action in Pending(files, counter)
  {
    var q := Keeper(Todo(files, counter)[name], r).action;
    TodoSource(files, counter, name, q);
    PendingBySource(files, counter, q);
  }

  // ------------------------------------------------------------ whole runs

  /** What r will be once all that is left to do has been done. */
  ghost function Outcome(files: Table, counter: Counter, m: Installation, r: Ref): Status {
    VerdictOf(Concat(Todo(files, counter), files.Keys), r).On(StatusOf(m, r))
  }

  lemma {:induction false} OutcomeBySoleFile(files: Table, counter: Counter, m: Installation, name: string, r: Ref)
    requires GoodFiles(files) && OnlyIn(files, name, r)
    ensures Outcome(files, counter, m, r) == VerdictOf(Get(Todo(files, counter), name), r).On(StatusOf(m, r))
  {
    TodoVerdict(files, counter, name, r);
  }

  lemma {:induction false} FinishingLater(todo: Verdict, done: Verdict, left: Verdict, st: Status)
    requires DoneOrWaiting(todo, done, left)
    ensures left.On(done.On(st)) == todo.On(st)
    ensures todo.On(done.On(st)) == todo.On(st)
  {
    assert done == todo ==> todo.Then(left).On(st) == left.On(todo.On(st));
  }

  /** However far a run gets, and whether or not its counter reaches the disk,
      it does not change what the outcome will be. */
  lemma {:induction false} RunKeepsOutcome(files: Table, counter: Counter, m: Installation, k: nat, saved: bool, r: Ref)
    requires GoodFiles(files) && k <= |Pending(files, counter)|
    ensures Outcome(files, if saved then CounterAfter(files, counter, k) else counter,
                    Perform(Performed(files, counter, k), m), r)
         == Outcome(files, counter, m, r)
  {
    var done := Performed(files, counter, k);
    var name := SoleFile(files, r);
    OutcomeBySoleFile(files, counter, m, name, r);
    OutcomeBySoleFile(files, counter, Perform(done, m), name, r);
    OutcomeBySoleFile(files, CounterAfter(files, counter, k), Perform(done, m), name, r);
    PerformByVerdict(done, m, r);
    if name in files {
      RunOnRef(files, counter, k, name, r);
      FinishingLater(VerdictOf(Todo(files, counter)[name], r), VerdictOf(done, r),
                     VerdictOf(Todo(files, CounterAfter(files, counter, k))[name], r), StatusOf(m, r));
    } else {
      DoneUnmentioned(files, counter, k, name, r);
    }
  }

  /** A run that gets to the end brings the outcome about. */
  lemma {:induction false} CompleteRunReachesOutcome(files: Table, counter: Counter, m: Installation, r: Ref)
    ensures StatusOf(Perform(Pending(files, counter), m), r) == Outcome(files, counter, m, r)
  {
    assert Todo(files, counter).Keys == files.Keys;
    FlattenedVerdict(Todo(files, counter), r);
    PerformByVerdict(Pending(files, counter), m, r);
  }

  // -------------------------------------------------------------- histories

  /** A new release appends actions to files, or an installer run performs
      some number of the pending actions before it fails, crashes or ends. */
  datatype Event = Publish(more: Table) | Attempt(done: nat, saved: bool)

  function Extended(files: Table, more: Table): Table {
    map name | name in files.Keys + more.Keys :: Get(files, name) + Get(more, name)
  }

  ghost predicate CanHappen(w: World, e: Event) {
    match e
    case Publish(more) => GoodFiles(Extended(w.files, more))
    case Attempt(done, saved) => done <= |Pending(w.files, w.counter)|
  }

  ghost function After(w: World, e: Event): World
    requires CanHappen(w, e)
  {
    match e
    case Publish(more) => w.(files := Extended(w.files, more))
    case Attempt(done, saved) => AfterAttempt(w, done, saved)
  }

  ghost predicate CanRun(w: World, events: seq<Event>)
    decreases |events|
  {
    events == [] || (CanHappen(w, events[0]) && CanRun(After(w, events[0]), events[1..]))
  }

  ghost function RunAll(w: World, events: seq<Event>): World
    requires CanRun(w, events)
    decreases |events|
  {
    if events == [] then w else RunAll(After(w, events[0]), events[1..])
  }

  /** The counter only ever holds serials of actions in the files. */
  ghost predicate CounterWithin(w: World) {
    forall name :: name in w.counter ==>
      name in w.files && exists a :: a in w.files[name] && a.serial == w.counter[name]
  }

  ghost predicate OnPlanAt(w: World, initial: Installation, r: Ref) {
    Outcome(w.files, w.counter, w.installed, r)
      == VerdictOf(Concat(w.files, w.files.Keys), r).On(StatusOf(initial, r))
  }

  /** Finishing what is left would do what all the files in full would have
      done to the installation as it was at first. */
  ghost predicate OnPlan(w: World, initial: Installation) {
    && GoodFiles(w.files)
    && CounterWithin(w)
    && forall r :: OnPlanAt(w, initial, r)
  }

  lemma {:induction false} StartsOnPlan(files: Table, initial: Installation)
    requires GoodFiles(files)
    ensures OnPlan(World(files, map[], initial), initial)
  {
    assert Todo(files, map[]) == files;
  }

  lemma {:induction false} AttemptStaysOnPlan(w: World, done: nat, saved: bool, initial: Installation)
    requires OnPlan(w, initial) && done <= |Pending(w.files, w.counter)|
    ensures OnPlan(After(w, Attempt(done, saved)), initial)
  {
    var w' := After(w, Attempt(done, saved));
    var s := Pending(w.files, w.counter)[..done];
    forall name | name in w'.counter
      ensures name in w'.files && exists a :: a in w'.files[name] && a.serial == w'.counter[name]
    {
      ProgressIsLast(s, name);
      if saved && name in Progress(s) {
        var a :| a in s && a.source == name && a.serial == Progress(s)[name];
        assert a in Pending(w.files, w.counter);
        PendingOf(w.files, w.counter, a);
      }
    }
    forall r ensures OnPlanAt(w', initial, r) {
      assert OnPlanAt(w, initial, r);
      RunKeepsOutcome(w.files, w.counter, w.installed, done, saved, r);
    }
  }

  lemma {:induction false} DropFromLonger(s: seq<RefAction>, t: seq<RefAction>, a: RefAction)
    requires StrictlyIncreasing(s + t) && a in s
    ensures DropApplied(s + t, a.serial) == DropApplied(s, a.serial) + t
  {
    var u := s + t;
    assert u[0] == s[0] && u[1..] == s[1..] + t;
    var i :| 0 <= i < |s| && s[i] == a;
    assert u[i] == a;
    if i > 0 {
      assert u[0].serial < u[i].serial;
      assert s[1..][i - 1] == a;
      DropFromLonger(s[1..], t, a);
    } else {
      var rest := s[1..] + t;
      if rest != [] {
        assert rest[0] == u[1] && u[0].serial < u[1].serial;
      }
      if s[1..] != [] {
        assert s[1..][0] == u[1];
      }
    }
  }

  /** Published actions all come after what the counter has reached. */
  lemma {:induction false} PublishedIsNew(w: World, more: Table, name: string)
    requires GoodFiles(w.files) && GoodFiles(Extended(w.files, more)) && CounterWithin(w)
    requires name in Extended(w.files, more)
    ensures Todo(Extended(w.files, more), w.counter)[name]
         == Get(Todo(w.files, w.counter), name) + Get(more, name)
  {
    if name in w.counter {
      var a :| a in w.files[name] && a.serial == w.counter[name];
      DropFromLonger(w.files[name], Get(more, name), a);
    }
  }

  lemma {:induction false} PublishKeepsWithin(w: World, more: Table)
    requires CounterWithin(w)
    ensures CounterWithin(w.(files := Extended(w.files, more)))
  {
    var files' := Extended(w.files, more);
    forall name | name in w.counter
      ensures name in files' && exists a: RefAction :: a in files'[name] && a.serial == w.counter[name]
    {
      var a :| a in w.files[name] && a.serial == w.counter[name];
      assert a in files'[name];
    }
  }

  lemma {:induction false} PublishStaysOnPlan(w: World, more: Table, initial: Installation)
    requires OnPlan(w, initial) && GoodFiles(Extended(w.files, more))
    ensures OnPlan(After(w, Publish(more)), initial)
  {
    PublishKeepsWithin(w, more);
    forall r ensures OnPlanAt(After(w, Publish(more)), initial, r) {
      PublishOnRef(w, more, initial, r);
    }
  }

  lemma {:induction false} PublishOnRef(w: World, more: Table, initial: Installation, r: Ref)
    requires OnPlan(w, initial) && GoodFiles(Extended(w.files, more))
    ensures OnPlanAt(After(w, Publish(more)), initial, r)
  {
    assert OnPlanAt(w, initial, r);
    var files' := Extended(w.files, more);
    var name := SoleFile(files', r);
    OnlyInBefore(w.files, more, name, r);
    OutcomeBySoleFile(w.files, w.counter, w.installed, name, r);
    OutcomeBySoleFile(files', w.counter, w.installed, name, r);
    VerdictBySoleFile(w.files, w.files.Keys, name, r);
    VerdictBySoleFile(files', files'.Keys, name, r);
    if name in files' {
      PublishedIsNew(w, more, name);
      VerdictConcat(Get(w.files, name), Get(more, name), r);
      VerdictConcat(Get(Todo(w.files, w.counter), name), Get(more, name), r);
      LaterMeansThen(VerdictOf(Get(w.files, name), r), VerdictOf(Get(Todo(w.files, w.counter), name), r),
                     VerdictOf(Get(more, name), r), StatusOf(initial, r), StatusOf(w.installed, r));
    }
  }

  lemma {:induction false} OnlyInBefore(files: Table, more: Table, name: string, r: Ref)
    requires OnlyIn(Extended(files, more), name, r)
    ensures OnlyIn(files, name, r)
  {
    forall other | other in files && other != name ensures !Mentions(files[other], r) {
      assert forall a :: a in files[other] ==> a in Extended(files, more)[other];
    }
  }

  lemma {:induction false} LaterMeansThen(all: Verdict, left: Verdict, more: Verdict, initial: Status, now: Status)
    requires left.On(now) == all.On(initial)
    ensures left.Then(more).On(now) == all.Then(more).On(initial)
  {
  }

  lemma {:induction false} EventStaysOnPlan(w: World, e: Event, initial: Installation)
    requires OnPlan(w, initial) && CanHappen(w, e)
    ensures OnPlan(After(w, e), initial)
  {
    match e {
      case Publish(more) => PublishStaysOnPlan(w, more, initial);
      case Attempt(done, saved) => AttemptStaysOnPlan(w, done, saved, initial);
    }
  }

  lemma {:induction false} HistoryStaysOnPlan(w: World, events: seq<Event>, initial: Installation)
    requires OnPlan(w, initial) && CanRun(w, events)
    ensures OnPlan(RunAll(w, events), initial)
    decreases |events|
  {
    if events != [] {
      EventStaysOnPlan(w, events[0], initial);
      HistoryStaysOnPlan(After(w, events[0]), events[1..], initial);
    }
  }

  /** Over any history of releases and interrupted runs, with any of the
      counter writes lost, the next run to reach its end leaves the machine as
      if every action ever published had been performed, file by file and in
      order, on the machine as it was at first. */
  lemma {:induction false} EveryPublishedActionTakesEffect(files: Table, initial: Installation, events: seq<Event>)
    requires GoodFiles(files) && CanRun(World(files, map[], initial), events)
    ensures (var w := RunAll(World(files, map[], initial), events);
             Perform(Pending(w.files, w.counter), w.installed) == RunFileByFile(w.files, w.files.Keys, initial))
  {
    var w := RunAll(World(files, map[], initial), events);
    StartsOnPlan(files, initial);
    HistoryStaysOnPlan(World(files, map[], initial), events, initial);
    var all := Concat(w.files, w.files.Keys);
    forall r
      ensures StatusOf(Perform(Pending(w.files, w.counter), w.installed), r) == StatusOf(Perform(all, initial), r)
    {
      assert OnPlanAt(w, initial, r);
      CompleteRunReachesOutcome(w.files, w.counter, w.installed, r);
      PerformByVerdict(all, initial, r);
    }
    SameStatusSameInstallation(Perform(Pending(w.files, w.counter), w.installed), Perform(all, initial));
    ConcatRunsFileByFile(w.files, w.files.Keys, initial);
  }

  ghost predicate OnlyAttempts(events: seq<Event>) {
    forall e :: e in events ==> e.Attempt?
  }

  /** From any saved counter, any number of interrupted runs followed by a
      complete one does what one uninterrupted run would have done. */
  lemma {:induction false} InterruptedEqualsUninterrupted(w: World, events: seq<Event>)
    requires GoodFiles(w.files) && OnlyAttempts(events) && CanRun(w, events)
    ensures var w' := RunAll(w, events);
            w'.files == w.files
            && Perform(Pending(w'.files, w'.counter), w'.installed) == Perform(Pending(w.files, w.counter), w.installed)
    decreases |events|
  {
    if events != [] {
      assert events[0] in events && events[0].Attempt?;
      var next := After(w, events[0]);
      assert OnlyAttempts(events[1..]);
      InterruptedEqualsUninterrupted(next, events[1..]);
      forall r
        ensures StatusOf(Perform(Pending(next.files, next.counter), next.installed), r)
             == StatusOf(Perform(Pending(w.files, w.counter), w.installed), r)
      {
        RunKeepsOutcome(w.files, w.counter, w.installed, events[0].done, events[0].saved, r);
        CompleteRunReachesOutcome(w.files, w.counter, w.installed, r);
        CompleteRunReachesOutcome(next.files, next.counter, next.installed, r);
      }
      SameStatusSameInstallation(Perform(Pending(next.files, next.counter), next.installed),
                                 Perform(Pending(w.files, w.counter), w.installed));
    }
  }
}
