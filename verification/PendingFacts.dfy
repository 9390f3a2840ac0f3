// What is in the pending list, file by file and ref by ref.

module PendingFacts {
  import opened Actions
  import opened ActionSort
  import opened ActionFile
  import opened Squash
  import opened Tables
  import opened Installer

  ghost predicate NoCommonRef(s: seq<RefAction>, t: seq<RefAction>) {
    forall a, b :: a in s && b in t ==> a.ref != b.ref
  }

  ghost predicate NoSharedRefs(files: Table) {
    forall n, o :: n in files && o in files && n != o ==> NoCommonRef(files[n], files[o])
  }

  ghost predicate DifferencesFit(s: seq<RefAction>, t: seq<RefAction>) {
    forall a, b :: a in s && b in t ==> a.serial as int - b.serial as int <= MAX_INT32
  }

  ghost predicate SerialsFit(files: Table) {
    forall n, o :: n in files && o in files ==> DifferencesFit(files[n], files[o])
  }

  ghost predicate ParsedFrom(s: seq<RefAction>, name: string) {
    forall a :: a in s ==> a.source == name && !a.isDependency
  }

  /** Files as loading leaves them. */
  ghost predicate LoadedFiles(files: Table) {
    && (forall name :: name in files ==> StrictlyIncreasing(files[name]))
    && (forall name :: name in files ==> ParsedFrom(files[name], name))
    && SerialsFit(files)
  }

  /** Such files, none mentioning a ref of another. */
  ghost predicate GoodFiles(files: Table) {
    LoadedFiles(files) && NoSharedRefs(files)
  }

  ghost function Todo(files: Table, counter: Counter): Table {
    Selected(OnlyNew, files, counter)
  }

  // ------------------------------------------------------- cutting a list

  /** s is before followed by after, and progress falls between the two. */
  ghost predicate CutsAt(s: seq<RefAction>, before: seq<RefAction>, after: seq<RefAction>, progress: int32) {
    && s == before + after
    && (forall a :: a in before ==> a.serial <= progress)
    && (forall a :: a in after ==> a.serial > progress)
  }

  lemma {:induction false} DropCuts(s: seq<RefAction>, progress: int32)
    requires StrictlyIncreasing(s)
    ensures CutsAt(s, TakeApplied(s, progress), DropApplied(s, progress), progress)
  {
    TakeThenDrop(s, progress);
    if s != [] && s[0].serial <= progress {
      DropCuts(s[1..], progress);
    }
  }

  lemma {:induction false} PartsIncrease(before: seq<RefAction>, after: seq<RefAction>)
    requires StrictlyIncreasing(before + after)
    ensures StrictlyIncreasing(before) && StrictlyIncreasing(after)
    ensures forall a, b :: a in before && b in after ==> a.serial < b.serial
  {
    var s := before + after;
    forall i, j | 0 <= i < j < |before| ensures before[i].serial < before[j].serial {
      assert s[i].serial < s[j].serial;
    }
    forall i, j | 0 <= i < j < |after| ensures after[i].serial < after[j].serial {
      assert s[|before| + i].serial < s[|before| + j].serial;
    }
    forall a, b | a in before && b in after ensures a.serial < b.serial {
      var i :| 0 <= i < |before| && before[i] == a;
      var j :| 0 <= j < |after| && after[j] == b;
      assert s[i].serial < s[|before| + j].serial;
    }
  }

  lemma {:induction false} DropTwice(s: seq<RefAction>, first: int32, second: int32)
    requires first <= second
    ensures DropApplied(DropApplied(s, first), second) == DropApplied(s, second)
  {
    if s != [] && s[0].serial <= first {
      DropTwice(s[1..], first, second);
    }
  }

  lemma {:induction false} NewIncreases(name: string, s: seq<RefAction>, counter: Counter)
    requires StrictlyIncreasing(s)
    ensures StrictlyIncreasing(NewActions(name, s, counter))
    ensures forall a :: a in NewActions(name, s, counter) ==> a in s && (name in counter ==> a.serial > counter[name])
  {
    if name in counter {
      DropCuts(s, counter[name]);
      PartsIncrease(TakeApplied(s, counter[name]), DropApplied(s, counter[name]));
    }
  }

  lemma {:induction false} InNewActions(name: string, s: seq<RefAction>, counter: Counter, a: RefAction)
    requires StrictlyIncreasing(s)
    ensures a in NewActions(name, s, counter) <==> a in s && (name in counter ==> a.serial > counter[name])
  {
    if name in counter {
      DropCuts(s, counter[name]);
    }
  }

  // ------------------------------------------------------- cutting a keeper

  lemma {:induction false} KeeperConcat(s: seq<RefAction>, t: seq<RefAction>, r: Ref)
    ensures Keeper(s + t, r) == match Keeper(t, r)
                                case Nothing => Keeper(s, r)
                                case Keep(a) => if Replaces(a, Keeper(s, r)) then Keep(a) else Keeper(s, r)
  {
    if t == [] {
      assert s + t == s;
    } else {
      var u := t[..|t|-1];
      KeeperConcat(s, u, r);
      assert (s + t)[..|s + t|-1] == s + u;
    }
  }

  /** Once the keeper is done, only updates of its ref can be left, and they
      change nothing. */
  lemma {:induction false} AfterKeeper(before: seq<RefAction>, after: seq<RefAction>, q: RefAction)
    requires Keeper(before + after, q.ref) == Keep(q) && q !in after
    ensures VerdictOf(before + after, q.ref).Then(VerdictOf(after, q.ref)) == VerdictOf(before + after, q.ref)
    ensures forall a :: a in after && a.ref == q.ref ==> a.action == Update && q.action != Update
  {
    KeeperConcat(before, after, q.ref);
    KeeperVerdict(after, q.ref);
    KeeperVerdict(before + after, q.ref);
    forall a | a in after && a.ref == q.ref ensures a.action == Update && q.action != Update {
      KeeperExists(after, q.ref);
      assert Mentions(after, q.ref);
      if a.action != Update {
        DecisiveKeeper(after, a);
      }
    }
  }

  /** While the keeper is not done, what is left means as much as all of it. */
  lemma {:induction false} BeforeKeeper(before: seq<RefAction>, after: seq<RefAction>, q: RefAction)
    requires Keeper(before + after, q.ref) == Keep(q) && q !in before
    ensures Keeper(after, q.ref) == Keep(q)
    ensures VerdictOf(after, q.ref) == VerdictOf(before + after, q.ref)
  {
    KeeperConcat(before, after, q.ref);
    KeeperVerdict(after, q.ref);
    KeeperVerdict(before + after, q.ref);
  }

  lemma {:induction false} DecisiveKeeper(s: seq<RefAction>, a: RefAction)
    requires a in s && a.action != Update
    ensures Keeper(s, a.ref).Keep? && Keeper(s, a.ref).action.action != Update
  {
    var u := s[..|s|-1];
    assert s == u + [s[|s|-1]];
    if s[|s|-1] != a {
      DecisiveKeeper(u, a);
    }
  }

  // ---------------------------------------------------- the pending actions

  lemma {:induction false} KeeperOfDistinct(s: seq<RefAction>, a: RefAction)
    requires DistinctRefs(s) && a in s
    ensures Keeper(s, a.ref) == Keep(a)
  {
    KeeperExists(s, a.ref);
    assert Mentions(s, a.ref);
  }

  lemma {:induction false} AppendDistinct(s: seq<RefAction>, t: seq<RefAction>)
    requires DistinctRefs(s) && DistinctRefs(t) && NoCommonRef(s, t)
    ensures DistinctRefs(s + t)
  {
    forall i, j | 0 <= i < j < |s + t| ensures (s + t)[i].ref != (s + t)[j].ref {
      assert i < |s| ==> s[i] in s;
      assert j >= |s| ==> t[j - |s|] in t;
    }
  }

  lemma {:induction false} ConcatDistinct(table: Table, names: set<string>)
    requires names <= table.Keys && NoSharedRefs(table)
    requires forall name :: name in names ==> DistinctRefs(table[name])
    ensures DistinctRefs(Concat(table, names))
    decreases |names|
  {
    if names != {} {
      var name := Least(names);
      var rest := Concat(table, names - {name});
      ConcatDistinct(table, names - {name});
      forall a, b | a in table[name] && b in rest ensures a.ref != b.ref {
        ConcatMember(table, names - {name}, b);
        var other :| other in names - {name} && b in table[other];
        assert NoCommonRef(table[name], table[other]);
      }
      AppendDistinct(table[name], rest);
    }
  }

  lemma {:induction false} TodoMember(files: Table, counter: Counter, name: string, a: RefAction)
    requires LoadedFiles(files) && name in files && a in Todo(files, counter)[name]
    ensures a in files[name]
  {
    NewIncreases(name, files[name], counter);
  }

  lemma {:induction false} TodoSource(files: Table, counter: Counter, name: string, a: RefAction)
    requires LoadedFiles(files) && name in files && a in Todo(files, counter)[name]
    ensures a.source == name && !a.isDependency
  {
    TodoMember(files, counter, name, a);
  }

  lemma {:induction false} InSquashed(s: seq<RefAction>, a: RefAction)
    requires a in Squashed(s)
    ensures a in s && Keeper(s, a.ref) == Keep(a)
  {
    SquashMember(s, a);
  }

  lemma {:induction false} NoCommonRefSquashed(files: Table, counter: Counter, n: string, o: string)
    requires GoodFiles(files) && n in files && o in files && n != o
    ensures NoCommonRef(Squashed(Todo(files, counter)[n]), Squashed(Todo(files, counter)[o]))
  {
    forall a, b | a in Squashed(Todo(files, counter)[n]) && b in Squashed(Todo(files, counter)[o])
      ensures a.ref != b.ref
    {
      InSquashed(Todo(files, counter)[n], a);
      InSquashed(Todo(files, counter)[o], b);
      TodoMember(files, counter, n, a);
      TodoMember(files, counter, o, b);
      assert NoCommonRef(files[n], files[o]);
    }
  }

  lemma {:induction false} SquashedTodoGood(files: Table, counter: Counter)
    requires GoodFiles(files)
    ensures NoSharedRefs(SquashedTable(Todo(files, counter)))
    ensures forall name :: name in files ==> DistinctRefs(SquashedTable(Todo(files, counter))[name])
  {
    var table := SquashedTable(Todo(files, counter));
    forall n, o | n in table && o in table && n != o
      ensures NoCommonRef(table[n], table[o])
    {
      NoCommonRefSquashed(files, counter, n, o);
    }
    forall name | name in files ensures DistinctRefs(table[name]) {
      SquashKeepsOnePerRef(Todo(files, counter)[name]);
    }
  }

  /** a is what is left to do about its ref in its file. */
  ghost predicate IsTodoKeeper(files: Table, counter: Counter, a: RefAction) {
    && a.source in files
    && a in Todo(files, counter)[a.source]
    && Keeper(Todo(files, counter)[a.source], a.ref) == Keep(a)
  }

  lemma {:induction false} SquashedTodoMember(files: Table, counter: Counter, name: string, a: RefAction)
    requires GoodFiles(files) && name in files && a in Squashed(Todo(files, counter)[name])
    ensures a.source == name && IsTodoKeeper(files, counter, a)
  {
    InSquashed(Todo(files, counter)[name], a);
    TodoSource(files, counter, name, a);
  }

  /** With no ref in two files, the pending list holds exactly each file's
      keepers. */
  lemma {:induction false} PendingBySource(files: Table, counter: Counter, a: RefAction)
    requires GoodFiles(files)
    ensures a in Pending(files, counter) <==> IsTodoKeeper(files, counter, a)
  {
    var table := SquashedTable(Todo(files, counter));
    var all := Concat(table, table.Keys);
    SquashMember(all, a);
    ConcatMember(table, table.Keys, a);
    if a in Pending(files, counter) {
      var name :| name in table && a in table[name];
      SquashedTodoMember(files, counter, name, a);
    }
    if IsTodoKeeper(files, counter, a) {
      SquashMember(Todo(files, counter)[a.source], a);
      SquashedTodoGood(files, counter);
      ConcatDistinct(table, table.Keys);
      KeeperOfDistinct(all, a);
    }
  }

  lemma {:induction false} KeeperOfSquashed(s: seq<RefAction>, r: Ref)
    ensures Keeper(Squashed(s), r) == Keeper(s, r)
  {
    SquashKeepsOnePerRef(s);
    KeeperExists(s, r);
    KeeperExists(Squashed(s), r);
    if Keeper(s, r).Keep? {
      KeeperOfDistinct(Squashed(s), Keeper(s, r).action);
    }
  }

  lemma {:induction false} KeeperOfSquashedTable(table: Table, names: set<string>, r: Ref)
    requires names <= table.Keys
    ensures Keeper(Concat(SquashedTable(table), names), r) == Keeper(Concat(table, names), r)
    decreases |names|
  {
    if names != {} {
      var name := Least(names);
      var rest := names - {name};
      KeeperOfSquashedTable(table, rest, r);
      KeeperOfSquashed(table[name], r);
      KeeperConcat(table[name], Concat(table, rest), r);
      KeeperConcat(Squashed(table[name]), Concat(SquashedTable(table), rest), r);
    }
  }

  /** For any files at all, the pending list holds exactly the action that
      stands for each ref among all the new actions in name order. */
  lemma {:induction false} PendingMember(files: Table, counter: Counter, a: RefAction)
    ensures a in Pending(files, counter) <==> Keeper(Concat(Todo(files, counter), files.Keys), a.ref) == Keep(a)
  {
    var todo := Todo(files, counter);
    assert todo.Keys == files.Keys;
    KeeperOfSquashedTable(todo, files.Keys, a.ref);
    SquashMember(Concat(SquashedTable(todo), files.Keys), a);
  }

  lemma {:induction false} PendingDistinct(files: Table, counter: Counter)
    ensures DistinctRefs(Pending(files, counter))
  {
    var table := SquashedTable(Todo(files, counter));
    SquashKeepsOnePerRef(Concat(table, table.Keys));
  }

  lemma {:induction false} PendingOf(files: Table, counter: Counter, a: RefAction)
    requires LoadedFiles(files) && a in Pending(files, counter)
    ensures a.source in files && a in Todo(files, counter)[a.source] && a in files[a.source]
  {
    PendingMember(files, counter, a);
    ConcatMember(Todo(files, counter), files.Keys, a);
    var name :| name in files && a in Todo(files, counter)[name];
    TodoSource(files, counter, name, a);
    TodoMember(files, counter, name, a);
  }

  lemma {:induction false} PendingFits(files: Table, counter: Counter, a: RefAction, b: RefAction)
    requires LoadedFiles(files) && a in Pending(files, counter) && b in Pending(files, counter)
    ensures a.serial as int - b.serial as int <= MAX_INT32
  {
    PendingOf(files, counter, a);
    PendingOf(files, counter, b);
    assert DifferencesFit(files[a.source], files[b.source]);
  }

  lemma {:induction false} PendingAscends(files: Table, counter: Counter)
    requires LoadedFiles(files)
    ensures DistinctRefs(Pending(files, counter))
    ensures SerialsAscend(Pending(files, counter))
  {
    var table := SquashedTable(Todo(files, counter));
    var all := Concat(table, table.Keys);
    SquashKeepsOnePerRef(all);
    var unsorted := Collect(all, all);
    assert Pending(files, counter) == Sort(unsorted);
    forall a | a in unsorted ensures a in Pending(files, counter) {
      SortKeepsMember(unsorted, a);
    }
    forall a, b | a in unsorted && b in unsorted
      ensures a.serial as int - b.serial as int <= MAX_INT32
    {
      PendingFits(files, counter, a, b);
    }
    SortAscends(unsorted);
  }

  // --------------------------------------------------- one ref in one file

  function Get(table: Table, name: string): seq<RefAction> {
    if name in table then table[name] else []
  }

  /** No file but name mentions r. */
  ghost predicate OnlyIn(table: Table, name: string, r: Ref) {
    forall other :: other in table && other != name ==> !Mentions(table[other], r)
  }

  lemma {:induction false} SoleFile(files: Table, r: Ref) returns (name: string)
    requires NoSharedRefs(files)
    ensures OnlyIn(files, name, r)
  {
    if n :| n in files && Mentions(files[n], r) {
      name := n;
      forall other | other in files && other != name ensures !Mentions(files[other], r) {
        assert NoCommonRef(files[name], files[other]);
      }
    } else {
      name := "";
    }
  }

  lemma {:induction false} VerdictBySoleFile(table: Table, names: set<string>, name: string, r: Ref)
    requires names <= table.Keys && OnlyIn(table, name, r)
    ensures VerdictOf(Concat(table, names), r) == if name in names then VerdictOf(table[name], r) else Untouched
    decreases |names|
  {
    if names != {} {
      var least := Least(names);
      var rest := names - {least};
      VerdictConcat(table[least], Concat(table, rest), r);
      VerdictBySoleFile(table, rest, name, r);
      if least != name {
        UnmentionedUntouched(table[least], r);
      }
    }
  }

  lemma {:induction false} TodoVerdict(files: Table, counter: Counter, name: string, r: Ref)
    requires GoodFiles(files) && OnlyIn(files, name, r)
    ensures VerdictOf(Concat(Todo(files, counter), files.Keys), r) == VerdictOf(Get(Todo(files, counter), name), r)
    ensures VerdictOf(Pending(files, counter), r) == VerdictOf(Get(Todo(files, counter), name), r)
  {
    var todo := Todo(files, counter);
    assert todo.Keys == files.Keys;
    forall other | other in todo && other != name ensures !Mentions(todo[other], r) {
      NewIncreases(other, files[other], counter);
    }
    VerdictBySoleFile(todo, files.Keys, name, r);
    FlattenedVerdict(todo, r);
  }
}
