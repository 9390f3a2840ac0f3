// Recursive removal of a file tree, sparing what a filter ignores.

module Removal {

  /** A path is the list of names from the root. */
  type Path = seq<string>

  datatype Kind = File | Directory

  type Nodes = map<Path, Kind>

  /** The paths the filter tells to ignore. */
  type Filter = set<Path>

  function Parent(p: Path): Path
    requires p != []
  {
    p[..|p|-1]
  }

  predicate IsChild(c: Path, dir: Path) {
    c != [] && Parent(c) == dir
  }

  predicate IsEmpty(nodes: Nodes, p: Path) {
    forall c :: c in nodes ==> !IsChild(c, p)
  }

  /** Everything but the root lies in a directory. */
  ghost predicate IsTree(nodes: Nodes) {
    forall p :: p in nodes && p != [] ==> Parent(p) in nodes && nodes[Parent(p)] == Directory
  }

  // ----------------------------------------------------------- what remains

  /** p is ignored, lies beneath something ignored, or leads to something
      ignored, all within top. */
  ghost predicate Spared(nodes: Nodes, top: Path, ignored: Filter, p: Path) {
    exists q :: q in nodes && top <= q && q in ignored && (q <= p || p <= q)
  }

  ghost function Remaining(nodes: Nodes, top: Path, ignored: Filter): Nodes {
    map p | p in nodes && (top <= p ==> Spared(nodes, top, ignored, p)) :: nodes[p]
  }

  // -------------------------------------------- the same, one level at a time

  /** Nothing from top down to p is ignored. */
  ghost predicate Exposed(nodes: Nodes, top: Path, ignored: Filter, p: Path)
    decreases |p|
  {
    && p in nodes && top <= p && p !in ignored
    && (p != top ==> Exposed(nodes, top, ignored, Parent(p)))
  }

  /** Nothing from d down is ignored. */
  ghost predicate Clear(nodes: Nodes, ignored: Filter, d: Path) {
    forall q :: q in nodes && d <= q ==> q !in ignored
  }

  lemma {:induction false} PrefixOfParent(q: Path, p: Path)
    requires q <= p && q != p
    ensures p != [] && q <= Parent(p)
  {
  }

  lemma {:induction false} Step(d: Path, q: Path) returns (c: Path)
    requires d <= q && d != q
    ensures IsChild(c, d) && c <= q
  {
    c := q[..|d| + 1];
  }

  lemma {:induction false} PrefixInTree(nodes: Nodes, p: Path, q: Path)
    requires IsTree(nodes) && q in nodes && p <= q
    ensures p in nodes && (p != q ==> nodes[p] == Directory)
    decreases |q|
  {
    if p != q {
      PrefixOfParent(p, q);
      PrefixInTree(nodes, p, Parent(q));
    }
  }

  lemma {:induction false} ExposedAbove(nodes: Nodes, top: Path, ignored: Filter, p: Path, q: Path)
    requires Exposed(nodes, top, ignored, p) && top <= q <= p
    ensures q in nodes && q !in ignored
    decreases |p|
  {
    if q != p {
      PrefixOfParent(q, p);
      ExposedAbove(nodes, top, ignored, Parent(p), q);
    }
  }

  lemma {:induction false} ShieldedBySome(nodes: Nodes, top: Path, ignored: Filter, p: Path) returns (q: Path)
    requires IsTree(nodes) && p in nodes && top <= p && !Exposed(nodes, top, ignored, p)
    ensures q in nodes && top <= q <= p && q in ignored
    decreases |p|
  {
    if p in ignored {
      q := p;
    } else {
      PrefixOfParent(top, p);
      q := ShieldedBySome(nodes, top, ignored, Parent(p));
    }
  }

  /** Within top, what is not spared is what is exposed and clear. */
  lemma {:induction false} SparedUnlessClear(nodes: Nodes, top: Path, ignored: Filter, p: Path)
    requires IsTree(nodes) && p in nodes && top <= p
    ensures Spared(nodes, top, ignored, p) <==> !(Exposed(nodes, top, ignored, p) && Clear(nodes, ignored, p))
  {
    if !Exposed(nodes, top, ignored, p) {
      var q := ShieldedBySome(nodes, top, ignored, p);
    } else {
      if Spared(nodes, top, ignored, p) {
        var q :| q in nodes && top <= q && q in ignored && (q <= p || p <= q);
        if q <= p {
          ExposedAbove(nodes, top, ignored, p, q);
        }
      }
      if !Clear(nodes, ignored, p) {
        var q :| q in nodes && p <= q && q in ignored;
        assert top <= q;
      }
    }
  }

  lemma {:induction false} ExposedFileClear(nodes: Nodes, top: Path, ignored: Filter, p: Path)
    requires IsTree(nodes) && Exposed(nodes, top, ignored, p) && nodes[p] == File
    ensures Clear(nodes, ignored, p)
  {
    forall q | q in nodes && p <= q ensures q !in ignored {
      PrefixInTree(nodes, p, q);
    }
  }

  // ---------------------------------------------------------- the traversal

  /** What the queue loop keeps, for nodes0 the tree it started from: seen
      directories are exposed, the queue holds the deepest of them in order of
      depth, and everything about a visited directory has been dealt with. */
  ghost predicate Sound(nodes0: Nodes, top: Path, ignored: Filter, visited: set<Path>, queue: seq<Path>) {
    && (forall d :: d in visited || d in queue ==> Exposed(nodes0, top, ignored, d) && nodes0[d] == Directory)
    && (forall d :: d in visited || d in queue ==> d == top || Parent(d) in visited)
    && (top in visited || top in queue)
    && (forall d :: d in queue ==> d !in visited)
    && Distinct(queue)
  }

  ghost predicate ByDepth(visited: set<Path>, queue: seq<Path>) {
    && (forall i, j :: 0 <= i < j < |queue| ==> |queue[i]| >= |queue[j]|)
    && (forall d, q :: d in visited && q in queue ==> |d| <= |q|)
    && (forall q :: q in queue ==> |q| <= |queue[|queue|-1]| + 1)
  }

  /** Every exposed directory in a visited one has been seen. */
  ghost predicate Explored(nodes0: Nodes, top: Path, ignored: Filter, visited: set<Path>, queue: seq<Path>) {
    forall c :: Exposed(nodes0, top, ignored, c) && nodes0[c] == Directory && c != top && Parent(c) in visited ==>
                  c in visited || c in queue
  }

  /** The exposed files of visited directories are gone, and only those. */
  ghost predicate FilesGone(nodes0: Nodes, top: Path, ignored: Filter, visited: set<Path>, nodes: Nodes) {
    forall p :: (p in nodes <==> p in nodes0 && !GoneFile(nodes0, top, ignored, visited, p))
             && (p in nodes ==> p in nodes0 && nodes[p] == nodes0[p])
  }

  ghost predicate GoneFile(nodes0: Nodes, top: Path, ignored: Filter, visited: set<Path>, p: Path) {
    Exposed(nodes0, top, ignored, p) && nodes0[p] == File && p != top && Parent(p) in visited
  }

  ghost predicate HasIgnoredChild(nodes0: Nodes, ignored: Filter, d: Path) {
    exists c :: c in nodes0 && IsChild(c, d) && c in ignored
  }

  /** The delete list holds the visited directories with no ignored child,
      deeper ones first. */
  ghost predicate Listed(nodes0: Nodes, ignored: Filter, visited: set<Path>, dirs: seq<Path>) {
    && (forall d :: d in dirs <==> d in visited && !HasIgnoredChild(nodes0, ignored, d))
    && (forall i, j :: 0 <= i < j < |dirs| ==> |dirs[i]| >= |dirs[j]|)
  }

  lemma {:induction false} AllVisited(nodes0: Nodes, top: Path, ignored: Filter, visited: set<Path>, p: Path)
    requires Sound(nodes0, top, ignored, visited, []) && Explored(nodes0, top, ignored, visited, [])
    requires IsTree(nodes0) && Exposed(nodes0, top, ignored, p) && nodes0[p] == Directory
    ensures p in visited
    decreases |p|
  {
    if p != top {
      PrefixOfParent(top, p);
      AllVisited(nodes0, top, ignored, visited, Parent(p));
    }
  }

  // --------------------------------------------------------- implementation

  datatype DeleteResult = Deleted | NotFound | NotEmpty | OtherError

  class FileSystem {
    var nodes: Nodes

    /** Paths on which an operation fails for reasons of its own. */
    const faulty: set<Path>

    constructor (nodes: Nodes, faulty: set<Path>)
      ensures this.nodes == nodes && this.faulty == faulty
    {
      this.nodes, this.faulty := nodes, faulty;
    }

    method Delete(p: Path) returns (result: DeleteResult)
      modifies this`nodes
      ensures result == if p !in old(nodes) then NotFound
                        else if p in faulty then OtherError
                        else if !IsEmpty(old(nodes), p) then NotEmpty
                        else Deleted
      ensures nodes == if result == Deleted then old(nodes) - {p} else old(nodes)
    {
      if p !in nodes { return NotFound; }
      if p in faulty { return OtherError; }
      if !IsEmpty(nodes, p) { return NotEmpty; }
      nodes := nodes - {p};
      return Deleted;
    }

    method RemoveIgnoringMissing(p: Path, ignoreNotEmpty: bool) returns (ok: bool)
      modifies this`nodes
      ensures ok == (p !in old(nodes) || (p !in faulty && (IsEmpty(old(nodes), p) || ignoreNotEmpty)))
      ensures nodes == if p in old(nodes) && p !in faulty && IsEmpty(old(nodes), p) then old(nodes) - {p}
                        else old(nodes)
    {
      var result := Delete(p);
      if result == Deleted { return true; }
      if result == NotFound { return true; }
      if ignoreNotEmpty && result == NotEmpty { return true; }
      return false;
    }

    /** One pass of the queue loop: files in dir are deleted, subdirectories go
        to the head of the queue, and ignored children are counted. */
    method ScanDirectory(dir: Path, queue: seq<Path>, ignored: Filter)
      returns (ok: bool, queue': seq<Path>, nIgnored: nat, ghost added: seq<Path>)
      requires IsTree(nodes) && dir in nodes
      modifies this`nodes
      ensures if ok then
                ScanState(old(nodes), ignored, ChildrenOf(old(nodes), dir), nodes, queue, queue', added, nIgnored)
              else PartlyScanned(old(nodes), ignored, dir, nodes) && FaultyBelow(faulty, dir)
    {
      ghost var start, done := nodes, {};
      var children := ChildrenOf(nodes, dir);
      var todo := children;
      queue', nIgnored, added := queue, 0, [];
      assert ScanState(start, ignored, done, nodes, queue, queue', added, nIgnored);
      ok := dir !in faulty;
      assert dir <= dir;
      while ok && todo != {}
        invariant done !! todo && done + todo == children
        invariant if ok then ScanState(start, ignored, done, nodes, queue, queue', added, nIgnored)
                  else Scanned(start, ignored, done, nodes) && FaultyBelow(faulty, dir)
        decreases ok, todo
      {
        var child :| child in todo;
        assert dir <= child;
        ok, queue', nIgnored, added := ScanChild(child, queue, queue', nIgnored, ignored, start, done, added);
        if ok {
          todo, done := todo - {child}, done + {child};
        }
      }
    }

    /** One child of the directory being scanned. */
    method ScanChild(child: Path, ghost queue0: seq<Path>, queue: seq<Path>, count: nat, ignored: Filter,
                     ghost start: Nodes, ghost done: set<Path>, ghost added: seq<Path>)
      returns (ok: bool, queue': seq<Path>, nIgnored: nat, ghost added': seq<Path>)
      requires IsTree(start) && child in start && child !in done
      requires ScanState(start, ignored, done, nodes, queue0, queue, added, count)
      modifies this`nodes
      ensures if ok then ScanState(start, ignored, done + {child}, nodes, queue0, queue', added', nIgnored)
              else Scanned(start, ignored, done, nodes) && child in faulty
    {
      ok, queue', nIgnored, added' := true, queue, count, added;
      if child in ignored {
        ScanIgnored(start, ignored, done, nodes, added, child);
        nIgnored := count + 1;
      } else if nodes[child] == Directory {
        ScanSubdirectory(start, ignored, done, nodes, added, child);
        PushHead(child, added, queue0);
        queue' := [child] + queue;
        added' := [child] + added;
      } else {
        ScanFile(start, ignored, done, nodes, added, child);
        ok := RemoveIgnoringMissing(child, false);
      }
    }

    /** Removes topdir and what is below it, sparing what is ignored. */
    method RemoveRecursive(top: Path, ignored: Filter) returns (ok: bool)
      requires IsTree(nodes)
      modifies this`nodes
      ensures ok ==> nodes == Remaining(old(nodes), top, ignored)
      ensures NothingSparedLost(old(nodes), top, ignored, nodes)
      ensures !ok ==> FaultyBelow(faulty, top)
    {
      ghost var nodes0 := nodes;
      if top !in nodes {
        NothingBelow(nodes, top, ignored);
        return true;
      }
      if top in ignored {
        TopIgnored(nodes, top, ignored);
        return true;
      }
      if nodes[top] != Directory {
        TopIsFile(nodes, top, ignored);
        assert top <= top;
        ok := RemoveIgnoringMissing(top, false);
        return;
      }
      ghost var visited: set<Path>;
      var dirsToDelete, anyIgnored;
      ok, dirsToDelete, anyIgnored, visited := RemoveFiles(top, ignored);
      if !ok {
        return;
      }
      ghost var listed := dirsToDelete;
      if !anyIgnored {
        NoneIgnored(nodes0, top, ignored, visited, nodes, listed);
        dirsToDelete := dirsToDelete + [top];
      }
      ok := RemoveDirectories(nodes0, top, ignored, visited, listed, dirsToDelete);
    }

    /** The queue loop: deletes files and lists directories, deepest first. */
    method RemoveFiles(top: Path, ignored: Filter)
      returns (ok: bool, dirsToDelete: seq<Path>, anyIgnored: bool, ghost visited: set<Path>)
      requires IsTree(nodes) && top in nodes && nodes[top] == Directory && top !in ignored
      modifies this`nodes
      ensures !ok ==> NothingSparedLost(old(nodes), top, ignored, nodes) && FaultyBelow(faulty, top)
      ensures ok ==> Swept(old(nodes), top, ignored, visited, nodes, dirsToDelete)
      ensures ok ==> (anyIgnored <==> SomeIgnoredChild(old(nodes), ignored, visited))
    {
      ghost var nodes0 := nodes;
      var queue := [top];
      dirsToDelete, anyIgnored, visited, ok := [], false, {}, true;
      StartOfQueue(nodes, top, ignored);
      while queue != []
        invariant QueueState(nodes0, top, ignored, visited, queue, nodes, dirsToDelete)
        invariant anyIgnored <==> SomeIgnoredChild(nodes0, ignored, visited)
        invariant ok
        decreases Directories(nodes0) - visited
      {
        var dir, rest := queue[|queue|-1], queue[..|queue|-1];
        ghost var before := nodes;
        SplitLast(queue, rest, dir);
        StillATree(nodes0, top, ignored, visited, rest, dir, nodes);
        var nIgnored;
        ghost var added;
        ok, queue, nIgnored, added := ScanDirectory(dir, rest, ignored);
        if !ok {
          StoppedHalfway(nodes0, top, ignored, visited, rest, dir, before, nodes);
          FaultyFurtherUp(faulty, top, dir);
          return;
        }
        Visit(nodes0, top, ignored, visited, rest, dir, before, nodes, added, dirsToDelete, queue, nIgnored);
        MoreVisited(nodes0, ignored, visited, dir);
        visited := visited + {dir};
        if nIgnored == 0 {
          dirsToDelete := [dir] + dirsToDelete;
        } else {
          anyIgnored := true;
        }
      }
    }

    /** Deletes the listed directories that are empty by then. */
    method RemoveDirectories(ghost nodes0: Nodes, ghost top: Path, ghost ignored: Filter, ghost visited: set<Path>,
                             ghost listed: seq<Path>, dirs: seq<Path>) returns (ok: bool)
      requires IsTree(nodes0) && Swept(nodes0, top, ignored, visited, nodes, listed)
      requires dirs == listed || (dirs == listed + [top] && Clear(nodes0, ignored, top))
      modifies this`nodes
      ensures ok ==> nodes == Remaining(nodes0, top, ignored)
      ensures NothingSparedLost(nodes0, top, ignored, nodes)
      ensures !ok ==> FaultyBelow(faulty, top)
    {
      hide IsTree, Swept, Remaining, Clear, Emptied, NothingSparedLost, FaultyBelow, IsEmpty;
      ghost var swept := nodes;
      var todo := dirs;
      ghost var done: seq<Path> := [];
      NothingDone(nodes0, ignored, swept);
      while todo != []
        invariant done + todo == dirs
        invariant Emptied(nodes0, ignored, swept, done, nodes)
        decreases |todo|
      {
        var dir := todo[0];
        MoveOn(done, todo);
        EmptyIffClear(nodes0, top, ignored, visited, swept, listed, dirs, done, nodes, todo[1..], dir);
        var removed := RemoveIgnoringMissing(dir, true);
        if !removed {
          LostNothing(nodes0, top, ignored, visited, swept, listed, dirs, done, todo, nodes);
          ListedBelowTop(nodes0, top, ignored, visited, swept, listed, dirs, done, todo, faulty);
          return false;
        }
        todo, done := todo[1..], done + [dir];
      }
      assert done == done + todo;
      LostNothing(nodes0, top, ignored, visited, swept, listed, dirs, done, todo, nodes);
      Finished(nodes0, top, ignored, visited, swept, listed, done, nodes);
      return true;
    }
  }

  ghost predicate FaultyBelow(faulty: set<Path>, top: Path) {
    exists p :: p in faulty && top <= p
  }

  lemma {:induction false} FaultyFurtherUp(faulty: set<Path>, top: Path, dir: Path)
    requires top <= dir && FaultyBelow(faulty, dir)
    ensures FaultyBelow(faulty, top)
  {
    var p :| p in faulty && dir <= p;
    assert top <= p;
  }

  function ChildrenOf(nodes: Nodes, dir: Path): set<Path> {
    set c | c in nodes && IsChild(c, dir)
  }

  /** Of start, the files in done that are not ignored are gone. */
  ghost predicate Scanned(start: Nodes, ignored: Filter, done: set<Path>, now: Nodes) {
    && (forall p :: p in now <==> p in start && !(p in done && start[p] == File && p !in ignored))
    && (forall p :: p in now ==> now[p] == start[p])
  }

  /** The directories in done that are not ignored, each once. */
  ghost predicate Collected(start: Nodes, ignored: Filter, done: set<Path>, added: seq<Path>) {
    && Distinct(added)
    && (forall p :: p in added <==> p in done && p in start && start[p] == Directory && p !in ignored)
  }

  ghost predicate AnyIgnored(start: Nodes, ignored: Filter, done: set<Path>) {
    exists c :: c in done && c in start && c in ignored
  }

  ghost predicate ScanState(start: Nodes, ignored: Filter, done: set<Path>, now: Nodes,
                            queue0: seq<Path>, queue: seq<Path>, added: seq<Path>, count: nat) {
    && Scanned(start, ignored, done, now)
    && queue == added + queue0
    && Collected(start, ignored, done, added)
    && (count > 0 <==> AnyIgnored(start, ignored, done))
  }

  ghost predicate PartlyScanned(start: Nodes, ignored: Filter, dir: Path, now: Nodes) {
    exists done :: done <= ChildrenOf(start, dir) && Scanned(start, ignored, done, now)
  }

  ghost predicate Distinct(s: seq<Path>) {
    forall i, j :: 0 <= i < j < |s| ==> s[i] != s[j]
  }

  lemma {:induction false} ScanIgnored(start: Nodes, ignored: Filter, done: set<Path>, now: Nodes,
                                       added: seq<Path>, child: Path)
    requires Scanned(start, ignored, done, now) && Collected(start, ignored, done, added)
    requires child in start && child in ignored
    ensures Scanned(start, ignored, done + {child}, now) && Collected(start, ignored, done + {child}, added)
    ensures AnyIgnored(start, ignored, done + {child})
  {
    assert child in done + {child};
  }

  lemma {:induction false} SameAnyIgnored(start: Nodes, ignored: Filter, done: set<Path>, child: Path)
    requires child in start && child !in ignored
    ensures AnyIgnored(start, ignored, done + {child}) <==> AnyIgnored(start, ignored, done)
  {
    if AnyIgnored(start, ignored, done) {
      var c :| c in done && c in start && c in ignored;
      assert c in done + {child};
    }
  }

  lemma {:induction false} ScanSubdirectory(start: Nodes, ignored: Filter, done: set<Path>, now: Nodes,
                                            added: seq<Path>, child: Path)
    requires Scanned(start, ignored, done, now) && Collected(start, ignored, done, added)
    requires child in start && child !in done && child !in ignored && start[child] == Directory
    ensures Scanned(start, ignored, done + {child}, now)
    ensures Collected(start, ignored, done + {child}, [child] + added)
    ensures AnyIgnored(start, ignored, done + {child}) <==> AnyIgnored(start, ignored, done)
  {
    DistinctCons(child, added);
    SameAnyIgnored(start, ignored, done, child);
  }

  lemma {:induction false} ScanFile(start: Nodes, ignored: Filter, done: set<Path>, now: Nodes,
                                    added: seq<Path>, child: Path)
    requires Scanned(start, ignored, done, now) && Collected(start, ignored, done, added)
    requires IsTree(start)
    requires child in start && child !in done && child !in ignored && start[child] == File
    ensures child in now && IsEmpty(now, child)
    ensures Scanned(start, ignored, done + {child}, now - {child})
    ensures Collected(start, ignored, done + {child}, added)
    ensures AnyIgnored(start, ignored, done + {child}) <==> AnyIgnored(start, ignored, done)
  {
    SameAnyIgnored(start, ignored, done, child);
  }

  lemma {:induction false} PushHead(p: Path, added: seq<Path>, queue: seq<Path>)
    ensures [p] + (added + queue) == ([p] + added) + queue
  {
  }

  lemma {:induction false} DistinctCons(p: Path, s: seq<Path>)
    requires Distinct(s) && p !in s
    ensures Distinct([p] + s)
  {
    forall i, j | 0 <= i < j < |[p] + s| ensures ([p] + s)[i] != ([p] + s)[j] {
      assert ([p] + s)[j] == s[j - 1] && s[j - 1] in s;
    }
  }

  // ------------------------------------------------- the queue loop's lemmas

  function Directories(nodes: Nodes): set<Path> {
    set p | p in nodes && nodes[p] == Directory
  }

  ghost predicate NothingSparedLost(nodes0: Nodes, top: Path, ignored: Filter, now: Nodes) {
    && (forall p :: p in now ==> p in nodes0 && now[p] == nodes0[p])
    && (forall p :: p in Remaining(nodes0, top, ignored) ==> p in now)
  }

  ghost predicate QueueState(nodes0: Nodes, top: Path, ignored: Filter, visited: set<Path>, queue: seq<Path>,
                             now: Nodes, dirs: seq<Path>) {
    && Sound(nodes0, top, ignored, visited, queue)
    && ByDepth(visited, queue)
    && Explored(nodes0, top, ignored, visited, queue)
    && FilesGone(nodes0, top, ignored, visited, now)
    && Listed(nodes0, ignored, visited, dirs)
  }

  ghost predicate SomeIgnoredChild(nodes0: Nodes, ignored: Filter, visited: set<Path>) {
    exists d :: d in visited && HasIgnoredChild(nodes0, ignored, d)
  }

  lemma {:induction false} StartOfQueue(nodes0: Nodes, top: Path, ignored: Filter)
    requires top in nodes0 && nodes0[top] == Directory && top !in ignored
    ensures QueueState(nodes0, top, ignored, {}, [top], nodes0, [])
    ensures !SomeIgnoredChild(nodes0, ignored, {})
  {
    assert Exposed(nodes0, top, ignored, top);
  }

  lemma {:induction false} SplitLast(queue: seq<Path>, rest: seq<Path>, dir: Path)
    requires queue != [] && dir == queue[|queue|-1] && rest == queue[..|queue|-1]
    ensures queue == rest + [dir]
  {
  }

  /** If no visited directory has an ignored child, nothing below top is ignored. */
  lemma {:induction false} NoneIgnored(nodes0: Nodes, top: Path, ignored: Filter, visited: set<Path>, now: Nodes,
                                       dirs: seq<Path>)
    requires IsTree(nodes0) && Swept(nodes0, top, ignored, visited, now, dirs)
    requires !SomeIgnoredChild(nodes0, ignored, visited)
    ensures Clear(nodes0, ignored, top)
  {
    forall q | q in nodes0 && top <= q ensures q !in ignored {
      AllExposed(nodes0, top, ignored, visited, now, dirs, q);
    }
  }

  lemma {:induction false} AllExposed(nodes0: Nodes, top: Path, ignored: Filter, visited: set<Path>, now: Nodes,
                                      dirs: seq<Path>, q: Path)
    requires IsTree(nodes0) && Swept(nodes0, top, ignored, visited, now, dirs)
    requires !SomeIgnoredChild(nodes0, ignored, visited)
    requires q in nodes0 && top <= q
    ensures Exposed(nodes0, top, ignored, q)
    decreases |q|
  {
    if q != top {
      PrefixOfParent(top, q);
      var dir := Parent(q);
      AllExposed(nodes0, top, ignored, visited, now, dirs, dir);
      AllVisited(nodes0, top, ignored, visited, dir);
      assert !HasIgnoredChild(nodes0, ignored, dir);
      assert IsChild(q, dir);
    }
  }

  lemma {:induction false} MoreVisited(nodes0: Nodes, ignored: Filter, visited: set<Path>, dir: Path)
    ensures SomeIgnoredChild(nodes0, ignored, visited + {dir}) <==>
              SomeIgnoredChild(nodes0, ignored, visited) || HasIgnoredChild(nodes0, ignored, dir)
  {
    if HasIgnoredChild(nodes0, ignored, dir) {
      assert dir in visited + {dir};
    }
    if SomeIgnoredChild(nodes0, ignored, visited) {
      var d :| d in visited && HasIgnoredChild(nodes0, ignored, d);
      assert d in visited + {dir};
    }
  }

  /** All exposed directories visited, all exposed files gone. */
  ghost predicate Swept(nodes0: Nodes, top: Path, ignored: Filter, visited: set<Path>, now: Nodes, dirs: seq<Path>) {
    && QueueState(nodes0, top, ignored, visited, [], now, dirs)
    && top in nodes0 && nodes0[top] == Directory && top !in ignored
  }

  lemma {:induction false} NothingBelow(nodes: Nodes, top: Path, ignored: Filter)
    requires IsTree(nodes) && top !in nodes
    ensures nodes == Remaining(nodes, top, ignored)
  {
    forall p | p in nodes ensures !(top <= p) {
      if top <= p {
        PrefixInTree(nodes, top, p);
      }
    }
  }

  lemma {:induction false} TopIgnored(nodes: Nodes, top: Path, ignored: Filter)
    requires top in nodes && top in ignored
    ensures nodes == Remaining(nodes, top, ignored)
  {
    forall p | p in nodes && top <= p ensures Spared(nodes, top, ignored, p) {
      assert top <= top;
    }
  }

  lemma {:induction false} TopIsFile(nodes: Nodes, top: Path, ignored: Filter)
    requires IsTree(nodes) && top in nodes && top !in ignored && nodes[top] == File
    ensures IsEmpty(nodes, top)
    ensures Remaining(nodes, top, ignored) == nodes - {top}
  {
    assert Exposed(nodes, top, ignored, top);
    ExposedFileClear(nodes, top, ignored, top);
    forall p | p in nodes && top <= p ensures p == top && !Spared(nodes, top, ignored, p) {
      PrefixInTree(nodes, top, p);
      SparedUnlessClear(nodes, top, ignored, p);
    }
  }

  lemma {:induction false} StillATree(nodes0: Nodes, top: Path, ignored: Filter, visited: set<Path>,
                                      rest: seq<Path>, dir: Path, now: Nodes)
    requires IsTree(nodes0) && Sound(nodes0, top, ignored, visited, rest + [dir])
    requires FilesGone(nodes0, top, ignored, visited, now)
    ensures IsTree(now) && dir in now && now[dir] == Directory
  {
    assert dir in rest + [dir];
  }

  lemma {:induction false} ChildExposed(nodes0: Nodes, top: Path, ignored: Filter, dir: Path, c: Path)
    requires Exposed(nodes0, top, ignored, dir) && c in nodes0 && IsChild(c, dir) && c !in ignored
    ensures Exposed(nodes0, top, ignored, c) && c != top
  {
    assert dir <= c && |c| == |dir| + 1;
  }

  lemma {:induction false} StoppedHalfway(nodes0: Nodes, top: Path, ignored: Filter, visited: set<Path>,
                                          rest: seq<Path>, dir: Path, before: Nodes, now: Nodes)
    requires IsTree(nodes0) && Sound(nodes0, top, ignored, visited, rest + [dir])
    requires FilesGone(nodes0, top, ignored, visited, before)
    requires PartlyScanned(before, ignored, dir, now)
    ensures NothingSparedLost(nodes0, top, ignored, now)
    ensures top <= dir
  {
    assert dir in rest + [dir];
    var done :| done <= ChildrenOf(before, dir) && Scanned(before, ignored, done, now);
    forall p | p in nodes0 && p !in now ensures p !in Remaining(nodes0, top, ignored) {
      if p in before {
        ChildExposed(nodes0, top, ignored, dir, p);
      }
      ExposedFileClear(nodes0, top, ignored, p);
      SparedUnlessClear(nodes0, top, ignored, p);
    }
  }

  /** added is the exposed subdirectories of dir. */
  ghost predicate NewDirectories(nodes0: Nodes, ignored: Filter, dir: Path, added: seq<Path>) {
    && Distinct(added)
    && (forall c :: c in added <==> c in nodes0 && IsChild(c, dir) && nodes0[c] == Directory && c !in ignored)
  }

  lemma {:induction false} Visit(nodes0: Nodes, top: Path, ignored: Filter, visited: set<Path>, rest: seq<Path>,
                                 dir: Path, before: Nodes, now: Nodes, added: seq<Path>, dirs: seq<Path>,
                                 queue: seq<Path>, nIgnored: nat)
    requires IsTree(nodes0) && QueueState(nodes0, top, ignored, visited, rest + [dir], before, dirs)
    requires ScanState(before, ignored, ChildrenOf(before, dir), now, rest, queue, added, nIgnored)
    ensures dir in Directories(nodes0) && dir !in visited
    ensures nIgnored > 0 <==> HasIgnoredChild(nodes0, ignored, dir)
    ensures QueueState(nodes0, top, ignored, visited + {dir}, queue, now, if nIgnored == 0 then [dir] + dirs else dirs)
  {
    assert dir in rest + [dir];
    ChildrenStillThere(nodes0, top, ignored, visited, dir, before);
    NewAre(nodes0, ignored, dir, before, added);
    CountIs(nodes0, ignored, dir, before);
    SoundStep(nodes0, top, ignored, visited, rest, dir, added);
    DepthStep(visited, rest, dir, added);
    ExploredStep(nodes0, top, ignored, visited, rest, dir, added);
    FilesStep(nodes0, top, ignored, visited, dir, before, now);
    ListedStep(nodes0, ignored, visited, rest, dir, dirs);
  }

  lemma {:induction false} ChildrenStillThere(nodes0: Nodes, top: Path, ignored: Filter, visited: set<Path>, dir: Path,
                                              before: Nodes)
    requires FilesGone(nodes0, top, ignored, visited, before) && dir !in visited
    ensures ChildrenOf(before, dir) == ChildrenOf(nodes0, dir)
    ensures forall c :: c in ChildrenOf(before, dir) ==> c in before && before[c] == nodes0[c]
  {
  }

  lemma {:induction false} NewAre(nodes0: Nodes, ignored: Filter, dir: Path, before: Nodes, added: seq<Path>)
    requires Collected(before, ignored, ChildrenOf(before, dir), added)
    requires ChildrenOf(before, dir) == ChildrenOf(nodes0, dir)
    requires forall c :: c in ChildrenOf(before, dir) ==> c in before && before[c] == nodes0[c]
    ensures NewDirectories(nodes0, ignored, dir, added)
  {
    forall c ensures c in added <==> c in nodes0 && IsChild(c, dir) && nodes0[c] == Directory && c !in ignored {
      assert c in ChildrenOf(nodes0, dir) <==> c in nodes0 && IsChild(c, dir);
    }
  }

  lemma {:induction false} CountIs(nodes0: Nodes, ignored: Filter, dir: Path, before: Nodes)
    requires ChildrenOf(before, dir) == ChildrenOf(nodes0, dir)
    ensures AnyIgnored(before, ignored, ChildrenOf(before, dir)) <==> HasIgnoredChild(nodes0, ignored, dir)
  {
    if HasIgnoredChild(nodes0, ignored, dir) {
      var c :| c in nodes0 && IsChild(c, dir) && c in ignored;
      assert c in ChildrenOf(nodes0, dir);
    }
    if AnyIgnored(before, ignored, ChildrenOf(before, dir)) {
      var c :| c in ChildrenOf(before, dir) && c in before && c in ignored;
      assert c in ChildrenOf(nodes0, dir);
    }
  }

  lemma {:induction false} SoundStep(nodes0: Nodes, top: Path, ignored: Filter, visited: set<Path>, rest: seq<Path>,
                                     dir: Path, added: seq<Path>)
    requires Sound(nodes0, top, ignored, visited, rest + [dir]) && NewDirectories(nodes0, ignored, dir, added)
    ensures Sound(nodes0, top, ignored, visited + {dir}, added + rest)
    ensures dir !in visited
  {
    var queue := rest + [dir];
    assert dir in queue;
    assert forall q :: q in rest ==> q in queue;
    forall c | c in added
      ensures Exposed(nodes0, top, ignored, c) && c != top && Parent(c) == dir
      ensures c !in queue && c !in visited && c != dir
    {
      ChildExposed(nodes0, top, ignored, dir, c);
    }
    RestWithoutLast(rest, dir);
    DistinctAppend(added, rest);
    assert top in queue ==> top == dir || top in rest;
  }

  lemma {:induction false} RestWithoutLast(rest: seq<Path>, dir: Path)
    requires Distinct(rest + [dir])
    ensures Distinct(rest) && dir !in rest
  {
    forall i, j | 0 <= i < j < |rest| ensures rest[i] != rest[j] {
      assert (rest + [dir])[i] != (rest + [dir])[j];
    }
    forall i | 0 <= i < |rest| ensures rest[i] != dir {
      assert (rest + [dir])[i] != (rest + [dir])[|rest|];
    }
  }

  lemma {:induction false} DistinctAppend(s: seq<Path>, t: seq<Path>)
    requires Distinct(s) && Distinct(t) && forall p :: p in s ==> p !in t
    ensures Distinct(s + t)
  {
    forall i, j | 0 <= i < j < |s + t| ensures (s + t)[i] != (s + t)[j] {
      assert i < |s| ==> s[i] in s;
      assert j >= |s| ==> t[j - |s|] in t;
    }
  }

  lemma {:induction false} DepthStep(visited: set<Path>, rest: seq<Path>, dir: Path, added: seq<Path>)
    requires ByDepth(visited, rest + [dir])
    requires forall c :: c in added ==> IsChild(c, dir)
    ensures ByDepth(visited + {dir}, added + rest)
    ensures forall d :: d in visited ==> |d| <= |dir|
  {
    var queue, queue' := rest + [dir], added + rest;
    assert queue[|queue|-1] == dir && dir in queue;
    forall q | q in rest ensures |dir| <= |q| <= |dir| + 1 {
      var i :| 0 <= i < |rest| && rest[i] == q;
      assert queue[i] == q && q in queue;
    }
    forall i, j | 0 <= i < j < |queue'| ensures |queue'[i]| >= |queue'[j]| {
      assert i < |added| ==> queue'[i] == added[i] && added[i] in added;
      assert j < |added| ==> queue'[j] == added[j] && added[j] in added;
      assert i >= |added| ==> queue[i - |added|] == queue'[i];
      assert j >= |added| ==> queue[j - |added|] == queue'[j] && queue'[j] in rest;
    }
    forall q | q in queue' ensures |dir| <= |q| <= |queue'[|queue'|-1]| + 1 {
      var last := queue'[|queue'|-1];
      assert last in added || last in rest;
      assert q in added || q in rest;
    }
    assert forall d :: d in visited ==> |d| <= |dir|;
  }

  lemma {:induction false} ExploredStep(nodes0: Nodes, top: Path, ignored: Filter, visited: set<Path>, rest: seq<Path>,
                                        dir: Path, added: seq<Path>)
    requires Explored(nodes0, top, ignored, visited, rest + [dir]) && NewDirectories(nodes0, ignored, dir, added)
    ensures Explored(nodes0, top, ignored, visited + {dir}, added + rest)
  {
    forall c | Exposed(nodes0, top, ignored, c) && nodes0[c] == Directory && c != top && Parent(c) in visited + {dir}
      ensures c in visited + {dir} || c in added + rest
    {
      if Parent(c) == dir {
        assert c != [] && IsChild(c, dir);
        assert c in added;
      } else {
        assert c in visited || c in rest + [dir];
      }
    }
  }

  lemma {:induction false} FilesStep(nodes0: Nodes, top: Path, ignored: Filter, visited: set<Path>, dir: Path,
                                     before: Nodes, now: Nodes)
    requires FilesGone(nodes0, top, ignored, visited, before)
    requires Scanned(before, ignored, ChildrenOf(before, dir), now)
    requires Exposed(nodes0, top, ignored, dir)
    ensures FilesGone(nodes0, top, ignored, visited + {dir}, now)
  {
    forall p ensures p in now <==> p in nodes0 && !GoneFile(nodes0, top, ignored, visited + {dir}, p) {
      if p in nodes0 && IsChild(p, dir) && p !in ignored {
        ChildExposed(nodes0, top, ignored, dir, p);
      }
      assert p in ChildrenOf(before, dir) <==> p in before && IsChild(p, dir);
    }
  }

  lemma {:induction false} ListedStep(nodes0: Nodes, ignored: Filter, visited: set<Path>, rest: seq<Path>, dir: Path,
                                      dirs: seq<Path>)
    requires Listed(nodes0, ignored, visited, dirs) && ByDepth(visited, rest + [dir])
    ensures Listed(nodes0, ignored, visited + {dir},
                   if HasIgnoredChild(nodes0, ignored, dir) then dirs else [dir] + dirs)
  {
    hide HasIgnoredChild;
    assert dir in rest + [dir];
    forall i | 0 <= i < |dirs| ensures |dirs[i]| <= |dir| {
      assert dirs[i] in dirs && dirs[i] in visited;
    }
    DeepestInFront(dirs, dir);
  }

  lemma {:induction false} DeepestInFront(dirs: seq<Path>, dir: Path)
    requires forall i, j :: 0 <= i < j < |dirs| ==> |dirs[i]| >= |dirs[j]|
    requires forall i :: 0 <= i < |dirs| ==> |dirs[i]| <= |dir|
    ensures (var longer := [dir] + dirs;
             forall i, j :: 0 <= i < j < |longer| ==> |longer[i]| >= |longer[j]|)
  {
    var longer := [dir] + dirs;
    forall i, j | 0 <= i < j < |longer| ensures |longer[i]| >= |longer[j]| {
      assert longer[j] == dirs[j - 1];
      assert i > 0 ==> longer[i] == dirs[i - 1];
    }
  }

  // --------------------------------------------------- the delete loop's lemmas

  /** Of the swept tree, the clear directories in done are gone. */
  ghost predicate Emptied(nodes0: Nodes, ignored: Filter, swept: Nodes, done: seq<Path>, now: Nodes) {
    && (forall p :: p in now <==> p in swept && !(p in done && Clear(nodes0, ignored, p)))
    && (forall p :: p in now ==> now[p] == swept[p])
  }

  lemma {:induction false} NothingDone(nodes0: Nodes, ignored: Filter, swept: Nodes)
    ensures Emptied(nodes0, ignored, swept, [], swept)
  {
  }

  lemma {:induction false} MoveOn(done: seq<Path>, todo: seq<Path>)
    requires todo != []
    ensures (done + [todo[0]]) + todo[1..] == done + todo
  {
  }

  lemma {:induction false} ListedIsVisited(nodes0: Nodes, top: Path, ignored: Filter, visited: set<Path>,
                                           swept: Nodes, listed: seq<Path>, d: Path)
    requires Swept(nodes0, top, ignored, visited, swept, listed) && (d in listed || d == top)
    ensures Exposed(nodes0, top, ignored, d) && nodes0[d] == Directory && d in visited
    ensures d in listed ==> !HasIgnoredChild(nodes0, ignored, d)
  {
  }

  lemma {:induction false} ListedBelowTop(nodes0: Nodes, top: Path, ignored: Filter, visited: set<Path>,
                                          swept: Nodes, listed: seq<Path>, dirs: seq<Path>, done: seq<Path>,
                                          todo: seq<Path>, faulty: set<Path>)
    requires Swept(nodes0, top, ignored, visited, swept, listed)
    requires dirs == listed || dirs == listed + [top]
    requires done + todo == dirs && todo != [] && todo[0] in faulty
    ensures FaultyBelow(faulty, top)
  {
    assert dirs[|done|] == todo[0];
    ListedIsVisited(nodes0, top, ignored, visited, swept, listed, todo[0]);
  }

  /** When a listed directory's turn comes, it is empty exactly when nothing
      below it is ignored. */
  lemma {:induction false} EmptyIffClear(nodes0: Nodes, top: Path, ignored: Filter, visited: set<Path>, swept: Nodes,
                                         listed: seq<Path>, dirs: seq<Path>, done: seq<Path>, now: Nodes,
                                         later: seq<Path>, d: Path)
    requires IsTree(nodes0) && Swept(nodes0, top, ignored, visited, swept, listed)
    requires dirs == listed || (dirs == listed + [top] && Clear(nodes0, ignored, top))
    requires (done + [d]) + later == dirs
    requires Emptied(nodes0, ignored, swept, done, now)
    ensures d !in now ==> Emptied(nodes0, ignored, swept, done + [d], now)
    ensures d in now && IsEmpty(now, d) ==> Emptied(nodes0, ignored, swept, done + [d], now - {d})
    ensures d in now && !IsEmpty(now, d) ==> Emptied(nodes0, ignored, swept, done + [d], now)
  {
    assert d in dirs && (d in listed || d == top);
    ListedIsVisited(nodes0, top, ignored, visited, swept, listed, d);
    assert d in swept;
    if Clear(nodes0, ignored, d) {
      forall c | c in now ensures !IsChild(c, d) {
        if IsChild(c, d) {
          ClearChildGone(nodes0, top, ignored, visited, swept, listed, dirs, done, now, later, d, c);
        }
      }
    } else {
      assert d in listed;
      UnclearChildStays(nodes0, top, ignored, visited, swept, listed, done, now, d);
    }
  }

  lemma {:induction false} ClearChildGone(nodes0: Nodes, top: Path, ignored: Filter, visited: set<Path>, swept: Nodes,
                                          listed: seq<Path>, dirs: seq<Path>, done: seq<Path>, now: Nodes,
                                          later: seq<Path>, d: Path, c: Path)
    requires IsTree(nodes0) && Swept(nodes0, top, ignored, visited, swept, listed)
    requires dirs == listed || dirs == listed + [top]
    requires (done + [d]) + later == dirs
    requires Emptied(nodes0, ignored, swept, done, now)
    requires Exposed(nodes0, top, ignored, d) && d in visited && Clear(nodes0, ignored, d) && IsChild(c, d)
    ensures c !in now
  {
    if c in now {
      ChildListed(nodes0, top, ignored, visited, swept, listed, d, c);
      ClearFurtherDown(nodes0, ignored, d, c);
      DeeperIsDone(listed, top, dirs, done, d, later, c);
    }
  }

  lemma {:induction false} ClearFurtherDown(nodes0: Nodes, ignored: Filter, d: Path, c: Path)
    requires Clear(nodes0, ignored, d) && IsChild(c, d)
    ensures |c| > |d| && Clear(nodes0, ignored, c) && !HasIgnoredChild(nodes0, ignored, c)
    ensures c in nodes0 ==> c !in ignored
  {
    assert d <= c;
    forall e | e in nodes0 && c <= e ensures e !in ignored {
      assert d <= e;
    }
    forall e | e in nodes0 && IsChild(e, c) ensures e !in ignored {
      assert c <= e;
    }
  }

  lemma {:induction false} ChildListed(nodes0: Nodes, top: Path, ignored: Filter, visited: set<Path>, swept: Nodes,
                                       listed: seq<Path>, d: Path, c: Path)
    requires IsTree(nodes0) && Swept(nodes0, top, ignored, visited, swept, listed)
    requires Exposed(nodes0, top, ignored, d) && d in visited && Clear(nodes0, ignored, d) && IsChild(c, d)
    requires c in swept
    ensures c in listed
  {
    ClearFurtherDown(nodes0, ignored, d, c);
    hide IsTree, HasIgnoredChild, Clear, Sound, Explored;
    assert c in nodes0;
    ChildExposed(nodes0, top, ignored, d, c);
    assert nodes0[c] == Directory;
    AllVisited(nodes0, top, ignored, visited, c);
  }

  lemma {:induction false} DeeperIsDone(listed: seq<Path>, top: Path, dirs: seq<Path>, done: seq<Path>, d: Path,
                                        later: seq<Path>, c: Path)
    requires forall i, j :: 0 <= i < j < |listed| ==> |listed[i]| >= |listed[j]|
    requires dirs == listed || dirs == listed + [top]
    requires (done + [d]) + later == dirs && c in listed && |c| > |d|
    ensures c in done
  {
    var i :| 0 <= i < |listed| && listed[i] == c;
    assert dirs[i] == c && dirs[|done|] == d;
    if |done| < |listed| {
      assert listed[|done|] == d;
      assert i < |done|;
    }
    assert done[i] == dirs[i];
  }

  lemma {:induction false} UnclearChildStays(nodes0: Nodes, top: Path, ignored: Filter, visited: set<Path>,
                                             swept: Nodes, listed: seq<Path>, done: seq<Path>, now: Nodes, d: Path)
    requires IsTree(nodes0) && Swept(nodes0, top, ignored, visited, swept, listed)
    requires Emptied(nodes0, ignored, swept, done, now)
    requires Exposed(nodes0, top, ignored, d) && !HasIgnoredChild(nodes0, ignored, d) && !Clear(nodes0, ignored, d)
    ensures !IsEmpty(now, d)
  {
    var q :| q in nodes0 && d <= q && q in ignored;
    var c := Step(d, q);
    PrefixInTree(nodes0, c, q);
    assert c != q;
    assert c in swept;
    assert !Clear(nodes0, ignored, c);
    assert c in now && IsChild(c, d);
  }

  lemma {:induction false} LostNothing(nodes0: Nodes, top: Path, ignored: Filter, visited: set<Path>, swept: Nodes,
                                       listed: seq<Path>, dirs: seq<Path>, done: seq<Path>, todo: seq<Path>, now: Nodes)
    requires IsTree(nodes0) && Swept(nodes0, top, ignored, visited, swept, listed)
    requires dirs == listed || dirs == listed + [top]
    requires done + todo == dirs
    requires Emptied(nodes0, ignored, swept, done, now)
    ensures NothingSparedLost(nodes0, top, ignored, now)
  {
    forall p | p in nodes0 && p !in now ensures p !in Remaining(nodes0, top, ignored) {
      if p in swept {
        assert p in done && p in dirs;
        ListedIsVisited(nodes0, top, ignored, visited, swept, listed, p);
      } else {
        ExposedFileClear(nodes0, top, ignored, p);
      }
      SparedUnlessClear(nodes0, top, ignored, p);
    }
  }

  lemma {:induction false} Finished(nodes0: Nodes, top: Path, ignored: Filter, visited: set<Path>, swept: Nodes,
                                    listed: seq<Path>, done: seq<Path>, now: Nodes)
    requires IsTree(nodes0) && Swept(nodes0, top, ignored, visited, swept, listed)
    requires done == listed || done == listed + [top]
    requires Emptied(nodes0, ignored, swept, done, now) && NothingSparedLost(nodes0, top, ignored, now)
    ensures now == Remaining(nodes0, top, ignored)
  {
    forall p | p in now && top <= p ensures Spared(nodes0, top, ignored, p) {
      LeftIsSpared(nodes0, top, ignored, visited, swept, listed, done, now, p);
    }
    OnlySparedLeft(nodes0, top, ignored, now);
  }

  lemma {:induction false} OnlySparedLeft(nodes0: Nodes, top: Path, ignored: Filter, now: Nodes)
    requires NothingSparedLost(nodes0, top, ignored, now)
    requires forall p :: p in now && top <= p ==> Spared(nodes0, top, ignored, p)
    ensures now == Remaining(nodes0, top, ignored)
  {
    hide Spared;
  }

  lemma {:induction false} LeftIsSpared(nodes0: Nodes, top: Path, ignored: Filter, visited: set<Path>, swept: Nodes,
                                        listed: seq<Path>, done: seq<Path>, now: Nodes, p: Path)
    requires IsTree(nodes0) && Swept(nodes0, top, ignored, visited, swept, listed)
    requires done == listed || done == listed + [top]
    requires Emptied(nodes0, ignored, swept, done, now) && NothingSparedLost(nodes0, top, ignored, now)
    requires p in now && top <= p
    ensures Spared(nodes0, top, ignored, p)
  {
    hide IsTree, Swept, Spared, Exposed, Clear, Remaining;
    SparedUnlessClear(nodes0, top, ignored, p);
    if Exposed(nodes0, top, ignored, p) && Clear(nodes0, ignored, p) {
      ExposedGone(nodes0, top, ignored, visited, swept, listed, p);
    }
  }

  lemma {:induction false} ExposedGone(nodes0: Nodes, top: Path, ignored: Filter, visited: set<Path>, swept: Nodes,
                                       listed: seq<Path>, p: Path)
    requires IsTree(nodes0) && Swept(nodes0, top, ignored, visited, swept, listed)
    requires Exposed(nodes0, top, ignored, p) && Clear(nodes0, ignored, p)
    ensures p !in swept || p in listed
  {
    if nodes0[p] == Directory {
      AllVisited(nodes0, top, ignored, visited, p);
      assert !HasIgnoredChild(nodes0, ignored, p) by {
        forall e | e in nodes0 && IsChild(e, p) ensures e !in ignored {
          assert p <= e;
        }
      }
    } else {
      PrefixOfParent(top, p);
      AllVisited(nodes0, top, ignored, visited, Parent(p));
    }
  }
}
