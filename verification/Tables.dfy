// Tables from autoinstall file name to actions: filtering against the saved
// progress, squashing every list, and flattening to one list.

module Tables {
  import opened Actions
  import opened Squash

  type Table = map<string, seq<RefAction>>

  /** The last serial applied from each file. */
  type Counter = map<string, int32>

  // --------------------------------------------------------------- filters

  function DropApplied(s: seq<RefAction>, progress: int32): seq<RefAction> {
    if s == [] || s[0].serial > progress then s else DropApplied(s[1..], progress)
  }

  function TakeApplied(s: seq<RefAction>, progress: int32): seq<RefAction> {
    if s == [] || s[0].serial > progress then [] else [s[0]] + TakeApplied(s[1..], progress)
  }

  function NewActions(name: string, s: seq<RefAction>, progresses: Counter): seq<RefAction> {
    if name in progresses then DropApplied(s, progresses[name]) else s
  }

  function ExistingActions(name: string, s: seq<RefAction>, progresses: Counter): seq<RefAction> {
    if name in progresses then TakeApplied(s, progresses[name]) else []
  }

  /** Whatever the counter says, the existing and the new actions of a file
      are the whole file, cut in two. */
  lemma {:induction false} FiltersPartition(name: string, s: seq<RefAction>, progresses: Counter)
    ensures ExistingActions(name, s, progresses) + NewActions(name, s, progresses) == s
  {
    if name in progresses {
      TakeThenDrop(s, progresses[name]);
    }
  }

  lemma {:induction false} TakeThenDrop(s: seq<RefAction>, progress: int32)
    ensures TakeApplied(s, progress) + DropApplied(s, progress) == s
  {
    if s != [] && s[0].serial <= progress {
      TakeThenDrop(s[1..], progress);
      assert s == [s[0]] + s[1..];
      assert TakeApplied(s, progress) + DropApplied(s, progress)
          == [s[0]] + (TakeApplied(s[1..], progress) + DropApplied(s[1..], progress));
    }
  }

  method KeepOnlyNewActions(name: string, incoming: seq<RefAction>, progresses: Counter)
    returns (filtered: seq<RefAction>)
    ensures filtered == NewActions(name, incoming, progresses)
  {
    if name !in progresses {
      return incoming;
    }
    var progress := progresses[name];
    var adding := false;
    filtered := [];
    for i := 0 to |incoming|
      invariant !adding ==> filtered == [] && DropApplied(incoming, progress) == DropApplied(incoming[i..], progress)
      invariant adding ==> DropApplied(incoming, progress) == filtered + incoming[i..]
    {
      var action := incoming[i];
      assert incoming[i..] == [action] + incoming[i + 1..];
      if !adding && action.serial > progress {
        adding := true;
      }
      if adding {
        filtered := filtered + [action];
      }
    }
  }

  method KeepOnlyExistingActions(name: string, incoming: seq<RefAction>, progresses: Counter)
    returns (filtered: seq<RefAction>)
    ensures filtered == ExistingActions(name, incoming, progresses)
  {
    filtered := [];
    if name !in progresses {
      return;
    }
    var progress := progresses[name];
    for i := 0 to |incoming|
      invariant TakeApplied(incoming, progress) == filtered + TakeApplied(incoming[i..], progress)
    {
      var action := incoming[i];
      if action.serial > progress {
        break;
      }
      assert incoming[i..][1..] == incoming[i + 1..];
      filtered := filtered + [action];
    }
  }

  // ---------------------------------------------------------- whole tables

  datatype Which = OnlyNew | OnlyExisting

  function Selected(which: Which, table: Table, progresses: Counter): Table {
    map name | name in table ::
      if which == OnlyNew then NewActions(name, table[name], progresses)
      else ExistingActions(name, table[name], progresses)
  }

  function SquashedTable(table: Table): Table {
    map name | name in table :: Squashed(table[name])
  }

  /** The order in which the table is walked makes no difference. */
  method SquashTable(table: Table) returns (squashed: Table)
    ensures squashed == SquashedTable(table)
  {
    squashed := map[];
    var todo := table.Keys;
    while todo != {}
      invariant todo <= table.Keys && squashed.Keys == table.Keys - todo
      invariant forall name :: name in squashed ==> squashed[name] == Squashed(table[name])
      decreases |todo|
    {
      var name :| name in todo;
      var actions := SquashActions(table[name]);
      squashed := squashed[name := actions];
      todo := todo - {name};
    }
  }

  method FilterTable(table: Table, which: Which, progresses: Counter) returns (filtered: Table)
    ensures filtered == SquashedTable(Selected(which, table, progresses))
  {
    var selected: Table := map[];
    var todo := table.Keys;
    while todo != {}
      invariant todo <= table.Keys && selected.Keys == table.Keys - todo
      invariant forall name :: name in selected ==> selected[name] == Selected(which, table, progresses)[name]
      decreases |todo|
    {
      var name :| name in todo;
      var actions;
      match which {
        case OnlyNew => actions := KeepOnlyNewActions(name, table[name], progresses);
        case OnlyExisting => actions := KeepOnlyExistingActions(name, table[name], progresses);
      }
      selected := selected[name := actions];
      todo := todo - {name};
    }
    assert selected == Selected(which, table, progresses);
    filtered := SquashTable(selected);
  }

  // ------------------------------------------------------------ name order

  /** Names compare character by character, a prefix first. */
  predicate NameLeq(a: string, b: string) {
    a == "" || (b != "" && (a[0] < b[0] || (a[0] == b[0] && NameLeq(a[1..], b[1..]))))
  }

  lemma {:induction false} NamesAntisymmetric(a: string, b: string)
    requires NameLeq(a, b) && NameLeq(b, a)
    ensures a == b
  {
    if a != "" && b != "" {
      NamesAntisymmetric(a[1..], b[1..]);
      assert a == [a[0]] + a[1..] && b == [b[0]] + b[1..];
    }
  }

  lemma {:induction false} NamesTransitive(a: string, b: string, c: string)
    requires NameLeq(a, b) && NameLeq(b, c)
    ensures NameLeq(a, c)
  {
    if a != "" && a[0] == b[0] == c[0] {
      NamesTransitive(a[1..], b[1..], c[1..]);
    }
  }

  lemma {:induction false} NamesTotal(a: string, b: string)
    ensures NameLeq(a, b) || NameLeq(b, a)
  {
    if a != "" && b != "" && a[0] == b[0] {
      NamesTotal(a[1..], b[1..]);
    }
  }

  /** a and b differ first at i, where a has the smaller character. */
  ghost predicate SmallerAt(a: string, b: string, i: nat) {
    i < |a| && i < |b| && a[..i] == b[..i] && a[i] < b[i]
  }

  /** Names sort by the first character in which they differ, and a prefix comes
      first. */
  ghost predicate SortsBefore(a: string, b: string) {
    a <= b || exists i :: SmallerAt(a, b, i)
  }

  lemma {:induction false} NamesCompare(a: string, b: string)
    ensures NameLeq(a, b) <==> SortsBefore(a, b)
  {
    if a != "" && b != "" {
      if a[0] == b[0] {
        NamesCompare(a[1..], b[1..]);
        SameFirst(a[0], a[1..], b[1..]);
        assert a == [a[0]] + a[1..] && b == [b[0]] + b[1..];
      } else if a[0] < b[0] {
        assert SmallerAt(a, b, 0);
      } else {
        forall i | SmallerAt(a, b, i) ensures false {
          NotSmallerLater(a, b, i);
        }
      }
    }
  }

  lemma {:induction false} SameFirst(c: char, u: string, v: string)
    ensures SortsBefore([c] + u, [c] + v) <==> SortsBefore(u, v)
  {
    if i: nat :| SmallerAt(u, v, i) {
      assert ([c] + u)[..i + 1] == [c] + u[..i] && ([c] + v)[..i + 1] == [c] + v[..i];
      assert SmallerAt([c] + u, [c] + v, i + 1);
    }
    if i: nat :| SmallerAt([c] + u, [c] + v, i) {
      FurtherOn(c, u, v, i);
      assert SmallerAt(u, v, i - 1);
    }
    SamePrefix(c, u, v);
  }

  lemma {:induction false} FurtherOn(c: char, u: string, v: string, i: nat)
    requires SmallerAt([c] + u, [c] + v, i)
    ensures i > 0 && SmallerAt(u, v, i - 1)
  {
    assert ([c] + u)[..i] == [c] + u[..i - 1] && ([c] + v)[..i] == [c] + v[..i - 1];
    assert u[..i - 1] == ([c] + u[..i - 1])[1..] && v[..i - 1] == ([c] + v[..i - 1])[1..];
  }

  lemma {:induction false} SamePrefix(c: char, u: string, v: string)
    ensures [c] + u <= [c] + v <==> u <= v
  {
    if [c] + u <= [c] + v {
      assert forall i :: 0 <= i < |u| ==> u[i] == ([c] + u)[i + 1] == ([c] + v)[i + 1] == v[i];
    }
  }

  lemma {:induction false} NotSmallerLater(a: string, b: string, i: nat)
    requires a != "" && b != "" && a[0] != b[0] && SmallerAt(a, b, i)
    ensures i == 0 && a[0] < b[0]
  {
    if i > 0 {
      SameStart(a, b, i);
    }
  }

  lemma {:induction false} SameStart(a: string, b: string, i: nat)
    requires 0 < i <= |a| && i <= |b| && a[..i] == b[..i]
    ensures a[0] == b[0]
  {
    assert a[..i][0] == b[..i][0];
  }

  ghost predicate IsLeast(name: string, names: set<string>) {
    name in names && forall other :: other in names ==> NameLeq(name, other)
  }

  lemma {:induction false} LeastExists(names: set<string>)
    requires names != {}
    ensures exists name :: IsLeast(name, names)
    decreases |names|
  {
    var name :| name in names;
    var rest := names - {name};
    NamesTotal(name, name);
    if rest == {} {
      assert names == {name};
      assert IsLeast(name, names);
    } else {
      LeastExists(rest);
      var other :| IsLeast(other, rest);
      NamesTotal(name, other);
      if NameLeq(name, other) {
        forall n | n in names ensures NameLeq(name, n) {
          if n in rest { NamesTransitive(name, other, n); }
        }
        assert IsLeast(name, names);
      } else {
        assert IsLeast(other, names);
      }
    }
  }

  ghost function Least(names: set<string>): (name: string)
    requires names != {}
    ensures IsLeast(name, names)
  {
    LeastExists(names);
    var name :| IsLeast(name, names);
    name
  }

  // --------------------------------------------------------------- flatten

  /** The lists of some of the files, one after another in name order. */
  ghost function Concat(table: Table, names: set<string>): seq<RefAction>
    requires names <= table.Keys
    decreases |names|
  {
    if names == {} then [] else table[Least(names)] + Concat(table, names - {Least(names)})
  }

  ghost function Flattened(table: Table): seq<RefAction> {
    Squashed(Concat(table, table.Keys))
  }

  method Flatten(table: Table) returns (actions: seq<RefAction>)
    ensures actions == Flattened(table)
  {
    var concatenated: seq<RefAction> := [];
    var names := table.Keys;
    while names != {}
      invariant names <= table.Keys
      invariant concatenated + Concat(table, names) == Concat(table, table.Keys)
      decreases |names|
    {
      LeastExists(names);
      assert IsLeast(Least(names), names);
      var name :| name in names && forall other :: other in names ==> NameLeq(name, other);
      ConcatNext(table, names, name, concatenated);
      concatenated := concatenated + table[name];
      names := names - {name};
    }
    assert concatenated + [] == concatenated;
    actions := SquashActions(concatenated);
  }

  lemma {:induction false} ConcatNext(table: Table, names: set<string>, name: string, done: seq<RefAction>)
    requires names <= table.Keys && IsLeast(name, names)
    ensures done + Concat(table, names) == (done + table[name]) + Concat(table, names - {name})
  {
    NamesAntisymmetric(name, Least(names));
  }

  lemma {:induction false} ConcatMember(table: Table, names: set<string>, a: RefAction)
    requires names <= table.Keys
    ensures a in Concat(table, names) <==> exists name :: name in names && a in table[name]
    decreases |names|
  {
    if names != {} {
      ConcatMember(table, names - {Least(names)}, a);
    }
  }

  // --------------------------------------------- flattening keeps its meaning

  /** The plain way: every action of every file, file by file in name order. */
  ghost function RunFileByFile(table: Table, names: set<string>, m: Installation): Installation
    requires names <= table.Keys
    decreases |names|
  {
    if names == {} then m
    else RunFileByFile(table, names - {Least(names)}, Perform(table[Least(names)], m))
  }

  lemma {:induction false} ConcatRunsFileByFile(table: Table, names: set<string>, m: Installation)
    requires names <= table.Keys
    ensures Perform(Concat(table, names), m) == RunFileByFile(table, names, m)
    decreases |names|
  {
    if names != {} {
      var rest := names - {Least(names)};
      PerformConcat(table[Least(names)], Concat(table, rest), m);
      ConcatRunsFileByFile(table, rest, Perform(table[Least(names)], m));
    }
  }

  lemma {:induction false} SquashEachKeepsVerdict(table: Table, names: set<string>, r: Ref)
    requires names <= table.Keys
    ensures VerdictOf(Concat(SquashedTable(table), names), r) == VerdictOf(Concat(table, names), r)
    decreases |names|
  {
    if names != {} {
      var name := Least(names);
      var rest := names - {name};
      SquashEachKeepsVerdict(table, rest, r);
      SquashKeepsVerdict(table[name], r);
      VerdictConcat(table[name], Concat(table, rest), r);
      VerdictConcat(Squashed(table[name]), Concat(SquashedTable(table), rest), r);
    }
  }

  lemma {:induction false} FlattenedVerdict(table: Table, r: Ref)
    ensures VerdictOf(Flattened(SquashedTable(table)), r) == VerdictOf(Concat(table, table.Keys), r)
  {
    assert SquashedTable(table).Keys == table.Keys;
    SquashKeepsVerdict(Concat(SquashedTable(table), table.Keys), r);
    SquashEachKeepsVerdict(table, table.Keys, r);
  }

  /** Squashing each file, concatenating in name order, squashing again and
      sorting files into each other by serial does what running every file in
      turn does. */
  lemma {:induction false} FlattenMatchesFileByFile(table: Table, m: Installation)
    ensures Perform(Flattened(SquashedTable(table)), m) == RunFileByFile(table, table.Keys, m)
  {
    forall r ensures VerdictOf(Flattened(SquashedTable(table)), r) == VerdictOf(Concat(table, table.Keys), r) {
      FlattenedVerdict(table, r);
    }
    SameVerdictsSameEffect(Flattened(SquashedTable(table)), Concat(table, table.Keys), m);
    ConcatRunsFileByFile(table, table.Keys, m);
  }

  /** The last file in name order that installs or uninstalls r has its way,
      whatever the serials. */
  lemma {:induction false} LastDecisiveFileWins(table: Table, names: set<string>, r: Ref, name: string)
    requires names <= table.Keys && name in names && VerdictOf(table[name], r).Decisive()
    requires forall other :: other in names && VerdictOf(table[other], r).Decisive() ==> NameLeq(other, name)
    ensures VerdictOf(Concat(table, names), r) == VerdictOf(table[name], r)
    decreases |names|
  {
    var least := Least(names);
    var rest := names - {least};
    VerdictConcat(table[least], Concat(table, rest), r);
    if least != name {
      LastDecisiveFileWins(table, rest, r, name);
    } else {
      forall other | other in rest ensures !VerdictOf(table[other], r).Decisive() {
        if VerdictOf(table[other], r).Decisive() {
          NamesAntisymmetric(name, other);
        }
      }
      IndecisiveConcat(table, rest, r);
    }
  }

  lemma {:induction false} IndecisiveConcat(table: Table, names: set<string>, r: Ref)
    requires names <= table.Keys
    requires forall name :: name in names ==> !VerdictOf(table[name], r).Decisive()
    ensures !VerdictOf(Concat(table, names), r).Decisive()
    decreases |names|
  {
    if names != {} {
      var rest := names - {Least(names)};
      VerdictConcat(table[Least(names)], Concat(table, rest), r);
      IndecisiveConcat(table, rest, r);
    }
  }

  /** With the tables as the installer builds them. */
  lemma {:induction false} FlattenPriority(table: Table, r: Ref, name: string)
    requires name in table && VerdictOf(table[name], r).Decisive()
    requires forall other :: other in table && VerdictOf(table[other], r).Decisive() ==> SortsBefore(other, name)
    ensures VerdictOf(Flattened(SquashedTable(table)), r) == VerdictOf(table[name], r)
  {
    forall other | other in table && VerdictOf(table[other], r).Decisive() ensures NameLeq(other, name) {
      NamesCompare(other, name);
    }
    FlattenedVerdict(table, r);
    LastDecisiveFileWins(table, table.Keys, r, name);
  }

  /** Two files that disagree about a ref: the one whose name sorts later has its
      way. */
  lemma {:induction false} LaterFileWins(n: string, o: string, a: RefAction, b: RefAction)
    requires SortsBefore(n, o) && n != o && a.ref == b.ref
    requires a.action != Update && b.action != Update
    ensures VerdictOf(Flattened(SquashedTable(map[n := [a], o := [b]])), b.ref)
         == if b.action == Install then Installed else Removed
  {
    var table := map[n := [a], o := [b]];
    assert [b][..0] == [] && [a][..0] == [];
    assert VerdictOf([b], b.ref) == if b.action == Install then Installed else Removed;
    FlattenPriority(table, b.ref, o);
  }
}
