// Performing a list of actions against an installation while keeping the
// persistent progress counter, and checking that actions were applied.

module Installer {
  import opened Common

  import opened Actions
  import opened Dependencies
  import opened Tables

  datatype Mode = PerformMode | StampMode | CheckMode

  // ------------------------------------------------------- specification

  /** The counter entries written after performing s: the last serial of each
      source. */
  function Progress(s: seq<RefAction>): Counter {
    if s == [] then map[] else Progress(s[..|s|-1])[s[|s|-1].source := s[|s|-1].serial]
  }

  function FirstFailure(works: seq<bool>): (k: nat)
    ensures k <= |works|
    ensures forall i :: 0 <= i < k ==> works[i]
    ensures k < |works| ==> !works[k]
  {
    if works == [] || !works[0] then 0 else 1 + FirstFailure(works[1..])
  }

  datatype Delta = Delta(ref: Ref, source: string, missing: bool)

  function Deltas(s: seq<RefAction>, m: Installation): seq<Delta> {
    if s == [] then []
    else
      var earlier, a := Deltas(s[..|s|-1], m), s[|s|-1];
      match a.action
      case Install => if a.ref in m then earlier else earlier + [Delta(a.ref, a.source, true)]
      case Uninstall => if a.ref in m then earlier + [Delta(a.ref, a.source, false)] else earlier
      case Update => earlier
  }

  /** A delta is missing for an install of what is not there, and superfluous
      for an uninstall of what is. */
  ghost predicate Undone(a: RefAction, m: Installation) {
    (a.action == Install && a.ref !in m) || (a.action == Uninstall && a.ref in m)
  }

  /** One delta for each such action, in order, these being the actions at the
      given places. */
  ghost predicate ReportOn(deltas: seq<Delta>, s: seq<RefAction>, m: Installation, at: seq<nat>) {
    && |at| == |deltas|
    && (forall j, k :: 0 <= j < k < |at| ==> at[j] < at[k])
    && (forall k :: 0 <= k < |at| ==> at[k] < |s|)
    && (forall k :: 0 <= k < |at| ==>
          deltas[k] == Delta(s[at[k]].ref, s[at[k]].source, s[at[k]].action == Install))
    && (forall i :: 0 <= i < |s| ==> (Undone(s[i], m) <==> i in at))
  }

  lemma {:induction false} DeltasReport(s: seq<RefAction>, m: Installation) returns (at: seq<nat>)
    ensures ReportOn(Deltas(s, m), s, m, at)
  {
    if s == [] {
      at := [];
    } else {
      var n := |s| - 1;
      at := DeltasReport(s[..n], m);
      assert forall i :: 0 <= i < n ==> s[i] == s[..n][i];
      if Undone(s[n], m) {
        at := at + [n];
      }
    }
  }

  /** What a run would perform. */
  ghost function Pending(files: Table, counter: Counter): seq<RefAction> {
    Flattened(SquashedTable(Selected(OnlyNew, files, counter)))
  }

  /** What a run that also pulls would perform. */
  ghost function Planned(files: Table, counter: Counter, related: seq<seq<RefAction>>): seq<RefAction>
    requires |related| == |Pending(files, counter)|
  {
    WithDependencies(Pending(files, counter), related)
  }

  /** What check mode looks at. */
  ghost function Due(files: Table, counter: Counter): seq<RefAction> {
    Flattened(SquashedTable(Selected(OnlyExisting, files, counter)))
  }

  // -------------------------------------------------- one run, from outside

  /** The published files with the state of one machine. */
  datatype World = World(files: Table, counter: Counter, installed: Installation)

  ghost function Performed(files: Table, counter: Counter, k: nat): seq<RefAction>
    requires k <= |Pending(files, counter)|
  {
    Pending(files, counter)[..k]
  }

  /** The counter after a run that applied the first k pending actions. */
  ghost function CounterAfter(files: Table, counter: Counter, k: nat): Counter
    requires k <= |Pending(files, counter)|
  {
    counter + Progress(Performed(files, counter, k))
  }

  /** A run performs the first pending actions and then fails, crashes or ends,
      with its counter saved or not. */
  ghost function AfterAttempt(w: World, done: nat, saved: bool): World
    requires done <= |Pending(w.files, w.counter)|
  {
    World(w.files,
          if saved then CounterAfter(w.files, w.counter, done) else w.counter,
          Perform(Performed(w.files, w.counter, done), w.installed))
  }

  // ------------------------------------------------------ implementation

  datatype TransactionResult = Done | AlreadyInstalled | IsNotInstalled | Failed

  /** The flatpak installation and the counter file of one machine. */
  class Machine {
    var installed: Installation
    var counter: Counter

    constructor (installed: Installation, counter: Counter)
      ensures this.installed == installed && this.counter == counter
    {
      this.installed, this.counter := installed, counter;
    }

    // The three libflatpak transactions; works is false when one fails for a
    // reason other than whether the ref is installed, and then nothing changes.

    method TransactionInstall(ref: Ref, works: bool) returns (result: TransactionResult)
      modifies this`installed
      ensures result == if !works then Failed else if ref in old(installed) then AlreadyInstalled else Done
      ensures installed == if result == Done then old(installed)[ref := Current] else old(installed)
    {
      if !works { return Failed; }
      if ref in installed { return AlreadyInstalled; }
      installed := installed[ref := Current];
      return Done;
    }

    method TransactionUpdate(ref: Ref, works: bool) returns (result: TransactionResult)
      modifies this`installed
      ensures result == if !works then Failed else if ref in old(installed) then Done else IsNotInstalled
      ensures installed == if result == Done then old(installed)[ref := Current] else old(installed)
    {
      if !works { return Failed; }
      if ref !in installed { return IsNotInstalled; }
      installed := installed[ref := Current];
      return Done;
    }

    method TransactionUninstall(ref: Ref, works: bool) returns (result: TransactionResult)
      modifies this`installed
      ensures result == if !works then Failed else if ref in old(installed) then Done else IsNotInstalled
      ensures installed == if result == Done then old(installed) - {ref} else old(installed)
    {
      if !works { return Failed; }
      if ref !in installed { return IsNotInstalled; }
      installed := installed - {ref};
      return Done;
    }

    method TryInstall(ref: Ref, works: bool) returns (ok: bool)
      modifies this`installed
      ensures ok == works
      ensures installed == if works then old(installed)[ref := Current] else old(installed)
    {
      var result := TransactionInstall(ref, works);
      if result != Done {
        if result != AlreadyInstalled {
          return false;
        }
        result := TransactionUpdate(ref, works);
        return result == Done;
      }
      return true;
    }

    method TryUpdate(ref: Ref, works: bool) returns (ok: bool)
      modifies this`installed
      ensures ok == works
      ensures installed == if works && ref in old(installed) then old(installed)[ref := Current] else old(installed)
    {
      var result := TransactionUpdate(ref, works);
      if result != Done {
        return result == IsNotInstalled;
      }
      return true;
    }

    method TryUninstall(ref: Ref, works: bool) returns (ok: bool)
      modifies this`installed
      ensures ok == works
      ensures installed == if works then old(installed) - {ref} else old(installed)
    {
      var result := TransactionUninstall(ref, works);
      if result != Done {
        return result == IsNotInstalled;
      }
      return true;
    }

    method PerformAction(action: RefAction, works: bool) returns (ok: bool)
      modifies this`installed
      ensures ok == works
      ensures installed == if works then Effect(action, old(installed)) else old(installed)
      ensures works && action.action == Install ==> installed == old(installed)[action.ref := Current]
      ensures works && action.action == Update ==>
                installed == if action.ref in old(installed) then old(installed)[action.ref := Current]
                             else old(installed)
      ensures works && action.action == Uninstall ==> installed == old(installed) - {action.ref}
    {
      match action.action {
        case Install => ok := TryInstall(action.ref, works);
        case Update => ok := TryUpdate(action.ref, works);
        case Uninstall => ok := TryUninstall(action.ref, works);
      }
    }

    /** Entries for other files stay as they are; saves is false when the
        counter file cannot be written. */
    method UpdateCounter(progresses: Counter, saves: bool) returns (ok: bool)
      modifies this`counter
      ensures ok == saves
      ensures counter == if saves then old(counter) + progresses else old(counter)
    {
      if saves {
        counter := counter + progresses;
      }
      return saves;
    }

    /** Applies the list until the first failure; the counter is saved either
        way, and covers just what was applied. */
    method ApplyRefActions(actions: seq<RefAction>, mode: Mode, alsoPull: bool, works: seq<bool>, saves: bool)
      returns (ok: bool)
      requires |works| == |actions|
      requires forall a :: a in actions && a.isDependency ==> alsoPull
      modifies this
      ensures mode == CheckMode ==> !ok && installed == old(installed) && counter == old(counter)
      ensures mode != CheckMode ==>
                var k := if mode == StampMode then |actions| else FirstFailure(works);
                && ok == (k == |actions| && saves)
                && installed == (if mode == StampMode then old(installed) else Perform(actions[..k], old(installed)))
                && counter == (if saves then old(counter) + Progress(actions[..k]) else old(counter))
    {
      if mode == CheckMode {
        return false;
      }
      var newProgresses: Counter := map[];
      for i := 0 to |actions|
        invariant mode == PerformMode ==> i <= FirstFailure(works)
        invariant installed == if mode == PerformMode then Perform(actions[..i], old(installed)) else old(installed)
        invariant counter == old(counter) && newProgresses == Progress(actions[..i])
      {
        var pending := actions[i];
        assert actions[..i + 1][..i] == actions[..i];
        if mode == PerformMode {
          var performed := PerformAction(pending, works[i]);
          if !performed {
            var saved := UpdateCounter(newProgresses, saves);
            return false;
          }
        }
        newProgresses := newProgresses[pending.source := pending.serial];
      }
      assert actions[..|actions|] == actions;
      ok := UpdateCounter(newProgresses, saves);
    }

    method CheckRefActionsApplied(actions: seq<RefAction>) returns (deltas: seq<Delta>)
      ensures deltas == Deltas(actions, installed)
      ensures exists at :: ReportOn(deltas, actions, installed, at)
    {
      deltas := [];
      for i := 0 to |actions|
        invariant deltas == Deltas(actions[..i], installed)
      {
        var pending := actions[i];
        assert actions[..i + 1][..i] == actions[..i];
        match pending.action {
          case Install =>
            if pending.ref !in installed {
              deltas := deltas + [Delta(pending.ref, pending.source, true)];
            }
          case Uninstall =>
            if pending.ref in installed {
              deltas := deltas + [Delta(pending.ref, pending.source, false)];
            }
          case Update =>
        }
      }
      assert actions[..|actions|] == actions;
      ghost var at := DeltasReport(actions, installed);
    }

    /** A whole run of the installer in perform or stamp mode.  With alsoPull
        the dependencies are added, unless they cannot be determined; works
        says which actions of the resulting list succeed. */
    method Run(files: Table, mode: Mode, alsoPull: bool, related: Option<seq<seq<RefAction>>>, works: seq<bool>,
               saves: bool)
      returns (ok: bool)
      requires mode != CheckMode
      requires !alsoPull ==> forall a :: a in Pending(files, counter) ==> !a.isDependency
      requires !alsoPull ==> |works| == |Pending(files, counter)|
      requires alsoPull && related.Some? ==>
                 && |related.value| == |Pending(files, counter)|
                 && |works| == |Planned(files, counter, related.value)|
      modifies this
      ensures alsoPull && related.None? ==> !ok && installed == old(installed) && counter == old(counter)
      ensures !(alsoPull && related.None?) ==>
                (var list, k := (if alsoPull then Planned(files, old(counter), related.value)
                                 else Pending(files, old(counter))),
                                if mode == StampMode then |works| else FirstFailure(works);
                 && ok == (k == |list| && saves)
                 && installed == (if mode == StampMode then old(installed) else Perform(list[..k], old(installed)))
                 && counter == (if saves then old(counter) + Progress(list[..k]) else old(counter)))
      ensures mode == PerformMode && !alsoPull ==>
                (var before := World(files, old(counter), old(installed));
                 World(files, counter, installed) == AfterAttempt(before, FirstFailure(works), saves))
    {
      var unapplied := FilterTable(files, OnlyNew, counter);
      var actions := Flatten(unapplied);
      if alsoPull {
        if related.None? {
          return false;
        }
        actions := AddDependencies(actions, related.value);
      }
      ok := ApplyRefActions(actions, mode, alsoPull, works, saves);
    }

    /** A run in check mode. */
    method Check(files: Table) returns (clean: bool)
      ensures clean == (Deltas(Due(files, counter), installed) == [])
    {
      var existing := FilterTable(files, OnlyExisting, counter);
      var actions := Flatten(existing);
      var deltas := CheckRefActionsApplied(actions);
      return deltas == [];
    }
  }

  // ------------------------------------------------------------ properties

  /** Whatever s installs or uninstalls is as s leaves it. */
  ghost predicate AsDecided(s: seq<RefAction>, m: Installation) {
    forall r :: AsVerdict(VerdictOf(s, r), StatusOf(m, r))
  }

  predicate AsVerdict(verdict: Verdict, status: Status) {
    verdict.Decisive() ==> status.Present? == verdict.Installed?
  }

  /** On one action per ref, check finds no delta exactly when every ref is as
      its verdict leaves it; updates are not checked. */
  lemma {:induction false} NoDeltasIffAsDecided(s: seq<RefAction>, m: Installation)
    requires DistinctRefs(s)
    ensures Deltas(s, m) == [] <==> AsDecided(s, m)
  {
    NoDeltasByAction(s, m);
    forall r | VerdictOf(s, r).Decisive()
      ensures exists a :: a in s && a.ref == r
    {
      if !Mentions(s, r) {
        UnmentionedUntouched(s, r);
      }
    }
    forall a | a in s ensures VerdictOf(s, a.ref) == ActionVerdict(a, a.ref) {
      VerdictOfDistinct(s, a);
    }
  }

  lemma {:induction false} NoDeltasByAction(s: seq<RefAction>, m: Installation)
    ensures Deltas(s, m) == [] <==>
            forall a :: a in s && a.action != Update ==> (a.action == Install <==> a.ref in m)
  {
    if s != [] {
      NoDeltasByAction(s[..|s|-1], m);
      assert s == s[..|s|-1] + [s[|s|-1]];
    }
  }

  /** The counter ends at the last serial performed from each source. */
  lemma {:induction false} ProgressIsLast(s: seq<RefAction>, source: string)
    ensures source in Progress(s) <==> exists a :: a in s && a.source == source
    ensures source in Progress(s) ==> exists a :: a in s && a.source == source && a.serial == Progress(s)[source]
  {
    if s != [] {
      var u := s[..|s|-1];
      ProgressIsLast(u, source);
      assert s == u + [s[|s|-1]];
      assert s[|s|-1] in s;
      assert forall a :: a in u ==> a in s;
      if s[|s|-1].source != source {
        assert forall a :: a in s && a.source == source ==> a in u;
      }
    }
  }
}
