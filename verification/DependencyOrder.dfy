// Where main actions and their dependencies end up once the list is squashed
// and sorted, and when the order they were assembled in is lost.

module DependencyOrder {
  import opened Actions
  import opened ActionSort
  import opened ActionFile
  import opened Squash
  import opened PendingFacts
  import opened Dependencies

  // ------------------------------------------------- what comes after a main

  lemma {:induction false} AddRelatedKeeps(out: seq<RefAction>, rel: seq<RefAction>, k: nat, a: RefAction)
    requires k <= |rel| && a in out
    ensures a in AddRelated(out, rel, k)
  {
    if k > 0 {
      AddRelatedKeeps(out, rel, k - 1, a);
    }
  }

  /** Of a ref that is there already only removals are added. */
  lemma {:induction false} AddedOn(out: seq<RefAction>, rel: seq<RefAction>, k: nat, r: Ref, a: RefAction)
    requires k <= |rel| && Mentions(out, r) && a.ref == r && a in AddRelated(out, rel, k)
    ensures a in out || (a in rel && Removes(a))
  {
    if k > 0 {
      var earlier, last := AddRelated(out, rel, k - 1), rel[k - 1];
      if a in earlier {
        AddedOn(out, rel, k - 1, r, a);
      } else {
        assert a == last;
        var b :| b in out && b.ref == r;
        AddRelatedKeeps(out, rel, k - 1, b);
        var l :| 0 <= l < |earlier| && earlier[l] == b;
        assert MentionsRef(earlier, r);
      }
    }
  }

  /** a is a main action from i up to n, or a removal that one relates to. */
  ghost predicate MainOrRemoval(mains: seq<RefAction>, related: seq<seq<RefAction>>, i: nat, n: nat, a: RefAction)
    requires |related| == |mains| && n <= |mains|
  {
    exists j :: i <= j < n && (a == mains[j] || (a in related[j] && Removes(a)))
  }

  /** What the main actions from i up to n add on a ref that is there already. */
  lemma {:induction false} AssembledOn(mains: seq<RefAction>, related: seq<seq<RefAction>>, i: nat, n: nat, r: Ref,
                                       a: RefAction)
    requires |related| == |mains| && i <= n <= |mains|
    requires Mentions(Assemble(mains, related, i), r) && a.ref == r && a in Assemble(mains, related, n)
    ensures a in Assemble(mains, related, i) || MainOrRemoval(mains, related, i, n, a)
  {
    if i < n {
      var j := n - 1;
      var earlier, main := Assemble(mains, related, j), mains[j];
      StaysMentioned(mains, related, i, j, r);
      var start := if Removes(main) then earlier + [main] else earlier;
      assert Mentions(start, r) by {
        var b :| b in earlier && b.ref == r;
        assert b in start;
      }
      if a != main && a in AddRelated(start, related[j], |related[j]|) {
        AddedOn(start, related[j], |related[j]|, r, a);
      }
      if a in earlier {
        AssembledOn(mains, related, i, j, r, a);
      }
    }
  }

  lemma {:induction false} StaysAssembled(mains: seq<RefAction>, related: seq<seq<RefAction>>, i: nat, n: nat,
                                          a: RefAction)
    requires |related| == |mains| && i <= n <= |mains| && a in Assemble(mains, related, i)
    ensures a in Assemble(mains, related, n)
  {
    var tail := AssembleTail(mains, related, i, n);
  }

  lemma {:induction false} StaysMentioned(mains: seq<RefAction>, related: seq<seq<RefAction>>, i: nat, n: nat, r: Ref)
    requires |related| == |mains| && i <= n <= |mains| && Mentions(Assemble(mains, related, i), r)
    ensures Mentions(Assemble(mains, related, n), r)
  {
    var a :| a in Assemble(mains, related, i) && a.ref == r;
    StaysAssembled(mains, related, i, n, a);
  }

  lemma {:induction false} MainAssembled(mains: seq<RefAction>, related: seq<seq<RefAction>>, i: nat)
    requires |related| == |mains| && i < |mains|
    ensures mains[i] in Assemble(mains, related, i + 1)
  {
    var block := LastBlock(mains, related, i);
  }

  lemma {:induction false} RemovalAssembled(mains: seq<RefAction>, related: seq<seq<RefAction>>, j: nat, a: RefAction)
    requires |related| == |mains| && j < |mains| && a in related[j] && Removes(a)
    ensures a in Assemble(mains, related, j + 1)
  {
    var added := AssembleStep(mains, related, j);
  }

  /** No action stems from two main actions. */
  lemma {:induction false} OneStem(mains: seq<RefAction>, related: seq<seq<RefAction>>, i: nat, j: nat, a: RefAction)
    requires MainsGood(mains) && RelatedGood(mains, related) && i < |mains| && j < |mains|
    requires StemsFrom(mains, related, i, a) && StemsFrom(mains, related, j, a)
    ensures i == j
  {
  }

  lemma {:induction false} NotEarlier(mains: seq<RefAction>, related: seq<seq<RefAction>>, i: nat, j: nat, a: RefAction)
    requires MainsGood(mains) && RelatedGood(mains, related) && i <= j < |mains| && StemsFrom(mains, related, j, a)
    ensures a !in Assemble(mains, related, i)
  {
    if a in Assemble(mains, related, i) {
      AssembledStems(mains, related, i, a);
      var l :| 0 <= l < i && StemsFrom(mains, related, l, a);
      OneStem(mains, related, l, j, a);
    }
  }

  // ------------------------------------------------------- what is overridden

  /** Main action j, or a removal that it relates to, takes r over. */
  ghost predicate TakesOver(mains: seq<RefAction>, related: seq<seq<RefAction>>, j: nat, r: Ref, standing: Kept)
    requires |related| == |mains| && j < |mains|
  {
    || (mains[j].ref == r && Replaces(mains[j], standing))
    || exists a :: a in related[j] && Removes(a) && a.ref == r
  }

  /** Something after the first n main actions takes r over from what stands for
      it by then. */
  ghost predicate Overridden(mains: seq<RefAction>, related: seq<seq<RefAction>>, n: nat, r: Ref)
    requires |related| == |mains| && n <= |mains|
  {
    exists j :: n <= j < |mains| && TakesOver(mains, related, j, r, Keeper(Assemble(mains, related, n), r))
  }

  lemma {:induction false} ReplacingKeeper(s: seq<RefAction>, a: RefAction, standing: Kept)
    requires a in s && Replaces(a, standing)
    ensures Keeper(s, a.ref).Keep? && Replaces(Keeper(s, a.ref).action, standing)
  {
    KeeperExists(s, a.ref);
    assert Mentions(s, a.ref);
    if a.action != Update {
      DecisiveKeeper(s, a);
    }
  }

  /** What stands for a ref by then still does in the end unless it is
      overridden; then what does stems from a later main action. */
  lemma {:induction false} StandsIff(mains: seq<RefAction>, related: seq<seq<RefAction>>, n: nat, r: Ref)
    requires MainsGood(mains) && RelatedGood(mains, related) && n <= |mains|
    requires Mentions(Assemble(mains, related, n), r)
    ensures (var end := Keeper(Assemble(mains, related, |mains|), r);
             && end.Keep?
             && (!Overridden(mains, related, n, r) ==> end == Keeper(Assemble(mains, related, n), r))
             && (Overridden(mains, related, n, r) ==> MainOrRemoval(mains, related, n, |mains|, end.action)))
  {
    var early := Assemble(mains, related, n);
    var tail := AssembleTail(mains, related, n, |mains|);
    KeeperExists(early, r);
    KeeperConcat(early, tail, r);
    if Keeper(tail, r).Keep? {
      LaterOn(mains, related, n, tail, Keeper(tail, r).action);
    }
    if Overridden(mains, related, n, r) {
      TakenOver(mains, related, n, tail, r);
    } else if Keeper(tail, r).Keep? {
      NotTakenOver(mains, related, n, r, Keeper(tail, r).action);
    }
  }

  lemma {:induction false} LaterOn(mains: seq<RefAction>, related: seq<seq<RefAction>>, n: nat, tail: seq<RefAction>,
                                   a: RefAction)
    requires MainsGood(mains) && RelatedGood(mains, related) && n <= |mains|
    requires Assemble(mains, related, |mains|) == Assemble(mains, related, n) + tail
    requires forall x :: x in tail ==> StemsBetween(mains, related, n, |mains|, x)
    requires a in tail && Mentions(Assemble(mains, related, n), a.ref)
    ensures MainOrRemoval(mains, related, n, |mains|, a)
  {
    assert StemsBetween(mains, related, n, |mains|, a);
    var j :| n <= j < |mains| && StemsFrom(mains, related, j, a);
    NotEarlier(mains, related, n, j, a);
    AssembledOn(mains, related, n, |mains|, a.ref, a);
  }

  lemma {:induction false} Taker(mains: seq<RefAction>, related: seq<seq<RefAction>>, n: nat, r: Ref)
    returns (a: RefAction)
    requires MainsGood(mains) && RelatedGood(mains, related) && n <= |mains| && Overridden(mains, related, n, r)
    ensures a in Assemble(mains, related, |mains|) && a !in Assemble(mains, related, n)
    ensures a.ref == r && Replaces(a, Keeper(Assemble(mains, related, n), r))
  {
    var standing := Keeper(Assemble(mains, related, n), r);
    var j :| n <= j < |mains| && TakesOver(mains, related, j, r, standing);
    if mains[j].ref == r && Replaces(mains[j], standing) {
      a := mains[j];
      MainAssembled(mains, related, j);
    } else {
      a :| a in related[j] && Removes(a) && a.ref == r;
      RemovalAssembled(mains, related, j, a);
    }
    StaysAssembled(mains, related, j + 1, |mains|, a);
    NotEarlier(mains, related, n, j, a);
  }

  lemma {:induction false} TakenOver(mains: seq<RefAction>, related: seq<seq<RefAction>>, n: nat, tail: seq<RefAction>,
                                     r: Ref)
    requires MainsGood(mains) && RelatedGood(mains, related) && n <= |mains| && Overridden(mains, related, n, r)
    requires Assemble(mains, related, |mains|) == Assemble(mains, related, n) + tail
    ensures Keeper(tail, r).Keep? && Replaces(Keeper(tail, r).action, Keeper(Assemble(mains, related, n), r))
  {
    hide MainsGood, Overridden, Assemble, Keeper;
    var a := Taker(mains, related, n, r);
    assert a in tail;
    ReplacingKeeper(tail, a, Keeper(Assemble(mains, related, n), r));
  }

  lemma {:induction false} NotTakenOver(mains: seq<RefAction>, related: seq<seq<RefAction>>, n: nat, r: Ref,
                                        a: RefAction)
    requires |related| == |mains| && n <= |mains| && !Overridden(mains, related, n, r)
    requires MainOrRemoval(mains, related, n, |mains|, a) && a.ref == r
    ensures !Replaces(a, Keeper(Assemble(mains, related, n), r))
  {
    var j :| n <= j < |mains| && (a == mains[j] || (a in related[j] && Removes(a)));
    assert !TakesOver(mains, related, j, r, Keeper(Assemble(mains, related, n), r));
  }

  // ---------------------------------------------------------- what is kept

  ghost predicate RemovedLater(mains: seq<RefAction>, related: seq<seq<RefAction>>, n: nat, r: Ref)
    requires |related| == |mains| && n <= |mains|
  {
    exists j :: n <= j < |mains| && exists a :: a in related[j] && Removes(a) && a.ref == r
  }

  /** Main action i is not an update of a ref that has been installed or
      uninstalled before it, and no later action removes its ref as a
      dependency. */
  ghost predicate MainKept(mains: seq<RefAction>, related: seq<seq<RefAction>>, i: nat)
    requires |related| == |mains| && i < |mains|
  {
    && (mains[i].action == Update ==> !Decides(Keeper(Assemble(mains, related, i), mains[i].ref)))
    && !RemovedLater(mains, related, i + 1, mains[i].ref)
  }

  lemma {:induction false} MainStandsIff(mains: seq<RefAction>, related: seq<seq<RefAction>>, i: nat)
    requires MainsGood(mains) && RelatedGood(mains, related) && i < |mains|
    ensures Mentions(Assemble(mains, related, i + 1), mains[i].ref)
    ensures Keeper(Assemble(mains, related, i + 1), mains[i].ref) == Keep(mains[i]) <==>
              (mains[i].action == Update ==> !Decides(Keeper(Assemble(mains, related, i), mains[i].ref)))
  {
    var main, early := mains[i], Assemble(mains, related, i);
    var added := AssembleStep(mains, related, i);
    MainAssembled(mains, related, i);
    NotEarlier(mains, related, i, i, main);
    KeeperExists(added, main.ref);
    assert !Mentions(added, main.ref);
    KeeperConcat(early, added, main.ref);
    KeeperConcat(early + added, [main], main.ref);
    KeeperConcat(early, [main], main.ref);
    KeeperConcat(early + [main], added, main.ref);
    KeeperOfOne(main);
  }

  lemma {:induction false} KeeperOfOne(a: RefAction)
    ensures Keeper([a], a.ref) == Keep(a)
  {
    assert [a][..0] == [];
  }

  lemma {:induction false} OverriddenByRemoval(mains: seq<RefAction>, related: seq<seq<RefAction>>, i: nat)
    requires MainsGood(mains) && RelatedGood(mains, related) && i < |mains|
    ensures Overridden(mains, related, i + 1, mains[i].ref) <==> RemovedLater(mains, related, i + 1, mains[i].ref)
  {
    var r, standing := mains[i].ref, Keeper(Assemble(mains, related, i + 1), mains[i].ref);
    if Overridden(mains, related, i + 1, r) {
      var j :| i + 1 <= j < |mains| && TakesOver(mains, related, j, r, standing);
      assert mains[i].ref != mains[j].ref;
    }
    if RemovedLater(mains, related, i + 1, r) {
      var j :| i + 1 <= j < |mains| && exists a :: a in related[j] && Removes(a) && a.ref == r;
      assert TakesOver(mains, related, j, r, standing);
    }
  }

  lemma {:induction false} MainKeeperIff(mains: seq<RefAction>, related: seq<seq<RefAction>>, i: nat)
    requires MainsGood(mains) && RelatedGood(mains, related) && i < |mains|
    ensures Keeper(Assemble(mains, related, |mains|), mains[i].ref) == Keep(mains[i]) <==> MainKept(mains, related, i)
  {
    var r := mains[i].ref;
    MainStandsIff(mains, related, i);
    OverriddenByRemoval(mains, related, i);
    StandsIff(mains, related, i + 1, r);
    if Overridden(mains, related, i + 1, r) {
      LaterIsOther(mains, related, i + 1, i, mains[i], Keeper(Assemble(mains, related, |mains|), r).action);
    }
  }

  lemma {:induction false} LaterIsOther(mains: seq<RefAction>, related: seq<seq<RefAction>>, n: nat, i: nat,
                                        a: RefAction, b: RefAction)
    requires MainsGood(mains) && RelatedGood(mains, related) && i < n <= |mains|
    requires StemsFrom(mains, related, i, a) && MainOrRemoval(mains, related, n, |mains|, b)
    ensures a != b
  {
    var j :| n <= j < |mains| && (b == mains[j] || (b in related[j] && Removes(b)));
    if a == b {
      OneStem(mains, related, i, j, a);
    }
  }

  lemma {:induction false} InResultIff(mains: seq<RefAction>, related: seq<seq<RefAction>>, a: RefAction)
    requires |related| == |mains|
    ensures a in WithDependencies(mains, related) <==> Keeper(Assemble(mains, related, |mains|), a.ref) == Keep(a)
  {
    SquashMember(Assemble(mains, related, |mains|), a);
  }

  /** The result has each main action's ref and each dependency's ref once and
      nothing else; a main action itself is there exactly if it is kept. */
  lemma {:induction false} DependenciesOnce(mains: seq<RefAction>, related: seq<seq<RefAction>>)
    requires MainsGood(mains) && RelatedGood(mains, related)
    ensures DistinctRefs(WithDependencies(mains, related))
    ensures forall i :: 0 <= i < |mains| ==> Mentions(WithDependencies(mains, related), mains[i].ref)
    ensures forall i :: 0 <= i < |mains| ==>
              (mains[i] in WithDependencies(mains, related) <==> MainKept(mains, related, i))
    ensures forall i, a :: 0 <= i < |mains| && a in related[i] ==> Mentions(WithDependencies(mains, related), a.ref)
    ensures forall a :: a in WithDependencies(mains, related) ==> StemsBetween(mains, related, 0, |mains|, a)
  {
    var s := Assemble(mains, related, |mains|);
    SquashKeepsOnePerRef(s);
    forall i | 0 <= i < |mains|
      ensures Mentions(WithDependencies(mains, related), mains[i].ref)
      ensures mains[i] in WithDependencies(mains, related) <==> MainKept(mains, related, i)
    {
      MainMentioned(mains, related, i);
      MainKeeperIff(mains, related, i);
      InResultIff(mains, related, mains[i]);
    }
    forall i, a | 0 <= i < |mains| && a in related[i] ensures Mentions(WithDependencies(mains, related), a.ref) {
      RelatedMentioned(mains, related, i, a);
    }
    forall a | a in WithDependencies(mains, related) ensures StemsBetween(mains, related, 0, |mains|, a) {
      InResultIff(mains, related, a);
      AssembledStems(mains, related, |mains|, a);
    }
  }

  lemma {:induction false} MainMentioned(mains: seq<RefAction>, related: seq<seq<RefAction>>, i: nat)
    requires |related| == |mains| && i < |mains|
    ensures Mentions(Assemble(mains, related, |mains|), mains[i].ref)
  {
    MainAssembled(mains, related, i);
    StaysAssembled(mains, related, i + 1, |mains|, mains[i]);
  }

  lemma {:induction false} RelatedMentioned(mains: seq<RefAction>, related: seq<seq<RefAction>>, i: nat, a: RefAction)
    requires |related| == |mains| && i < |mains| && a in related[i]
    ensures Mentions(Assemble(mains, related, i + 1), a.ref) && Mentions(Assemble(mains, related, |mains|), a.ref)
  {
    var added := AssembleStep(mains, related, i);
    StaysMentioned(mains, related, i + 1, |mains|, a.ref);
  }

  // ------------------------------------------------- installs: dependency first

  lemma {:induction false} PrecedesOneWay(s: seq<RefAction>, x: RefAction, y: RefAction)
    requires DistinctRefs(s) && Precedes(s, x, y)
    ensures !Precedes(s, y, x) && x in s && y in s
  {
    var i, j := PrecedesIndices(s, x, y);
    if Precedes(s, y, x) {
      var k, l := PrecedesIndices(s, y, x);
    }
  }

  lemma {:induction false} MainApart(mains: seq<RefAction>, related: seq<seq<RefAction>>, i: nat)
    requires MainsGood(mains) && RelatedGood(mains, related) && i < |mains|
    ensures !mains[i].isDependency && mains[i] !in related[i]
  {
  }

  /** Around a main action that installs or updates. */
  lemma {:induction false} AroundMain(mains: seq<RefAction>, related: seq<seq<RefAction>>, i: nat)
    returns (before: seq<RefAction>, after: seq<RefAction>)
    requires MainsGood(mains) && RelatedGood(mains, related) && i < |mains| && !Removes(mains[i])
    ensures Assemble(mains, related, |mains|) == before + [mains[i]] + after
    ensures Assemble(mains, related, i + 1) == before + [mains[i]]
    ensures mains[i] !in before && forall a :: a in before ==> Compare(a, mains[i]) <= 0
  {
    hide MainsGood, Assemble, Compare, DependsAsMain;
    MainApart(mains, related, i);
    var added := AssembleStep(mains, related, i);
    before := Assemble(mains, related, i) + added;
    after := AssembleTail(mains, related, i + 1, |mains|);
    NotEarlier(mains, related, i, i, mains[i]);
    assert forall a :: a in before ==> a in Assemble(mains, related, i + 1);
    NoneAbove(mains, related, i, mains[i], before);
  }

  lemma {:induction false} NoneAbove(mains: seq<RefAction>, related: seq<seq<RefAction>>, i: nat, y: RefAction,
                                     before: seq<RefAction>)
    requires MainsGood(mains) && RelatedGood(mains, related) && i < |mains|
    requires y.serial == mains[i].serial && y.isDependency == Removes(y)
    requires forall a :: a in before ==> a in Assemble(mains, related, i + 1)
    ensures forall a :: a in before ==> Compare(a, y) <= 0
  {
    hide Compare, Assemble;
    forall a | a in before ensures Compare(a, y) <= 0 {
      AssembledStems(mains, related, i + 1, a);
      SerialsFollowMains(mains, related, i + 1, a, i, y);
    }
  }

  /** What is kept of the first main actions stays in front of a later one that
      installs or updates. */
  lemma {:induction false} KeptInFront(mains: seq<RefAction>, related: seq<seq<RefAction>>, i: nat, x: RefAction)
    requires MainsGood(mains) && RelatedGood(mains, related) && i < |mains| && !Removes(mains[i])
    requires x in Assemble(mains, related, i + 1) && x != mains[i]
    requires Keeper(Assemble(mains, related, |mains|), x.ref) == Keep(x)
    requires Keeper(Assemble(mains, related, |mains|), mains[i].ref) == Keep(mains[i])
    ensures Precedes(WithDependencies(mains, related), x, mains[i])
  {
    var before, after := AroundMain(mains, related, i);
    assert x in before;
    SquashKeepsAhead(Assemble(mains, related, |mains|), before, mains[i], after, x);
  }

  /** The action that stands for a dependency once main action i is assembled. */
  ghost function Standing(mains: seq<RefAction>, related: seq<seq<RefAction>>, i: nat, d: RefAction): (k: Kept)
    requires |related| == |mains| && i < |mains| && d in related[i]
    ensures k.Keep? && k.action in Assemble(mains, related, i + 1) && k.action.ref == d.ref
  {
    RelatedMentioned(mains, related, i, d);
    KeeperExists(Assemble(mains, related, i + 1), d.ref);
    Keeper(Assemble(mains, related, i + 1), d.ref)
  }

  lemma {:induction false} OrderHolds(mains: seq<RefAction>, related: seq<seq<RefAction>>, i: nat, d: RefAction)
    requires MainsGood(mains) && RelatedGood(mains, related) && i < |mains| && !Removes(mains[i]) && d in related[i]
    requires MainKept(mains, related, i) && !Overridden(mains, related, i + 1, d.ref)
    ensures (var x := Standing(mains, related, i, d).action;
             x in WithDependencies(mains, related) && Precedes(WithDependencies(mains, related), x, mains[i]))
  {
    hide MainKept, Overridden;
    var x := Standing(mains, related, i, d).action;
    RelatedMentioned(mains, related, i, d);
    StandsIff(mains, related, i + 1, d.ref);
    MainKeeperIff(mains, related, i);
    InResultIff(mains, related, x);
    assert d.ref != mains[i].ref;
    KeptInFront(mains, related, i, x);
  }

  lemma {:induction false} LaterMainFollows(mains: seq<RefAction>, related: seq<seq<RefAction>>, i: nat, x: RefAction)
    requires MainsGood(mains) && RelatedGood(mains, related) && i < |mains|
    requires MainOrRemoval(mains, related, i + 1, |mains|, x) && !Removes(x)
    requires Keeper(Assemble(mains, related, |mains|), x.ref) == Keep(x)
    requires Keeper(Assemble(mains, related, |mains|), mains[i].ref) == Keep(mains[i])
    ensures Precedes(WithDependencies(mains, related), mains[i], x)
  {
    hide MainsGood, Assemble, Keeper;
    var j := WhichMain(mains, related, i + 1, x);
    MainAssembled(mains, related, i);
    StaysAssembled(mains, related, i + 1, j + 1, mains[i]);
    DifferentMains(mains, i, j);
    KeptInFront(mains, related, j, mains[i]);
  }

  lemma {:induction false} WhichMain(mains: seq<RefAction>, related: seq<seq<RefAction>>, n: nat, x: RefAction)
    returns (j: nat)
    requires |related| == |mains| && n <= |mains| && MainOrRemoval(mains, related, n, |mains|, x) && !Removes(x)
    ensures n <= j < |mains| && x == mains[j]
  {
    j :| n <= j < |mains| && (x == mains[j] || (x in related[j] && Removes(x)));
  }

  lemma {:induction false} DifferentMains(mains: seq<RefAction>, i: nat, j: nat)
    requires MainsGood(mains) && i < |mains| && j < |mains| && i != j
    ensures mains[i] != mains[j] && mains[i].ref != mains[j].ref
  {
  }

  // --------------------------------------------------- removals: dependency last

  /** A later main action installs r, and nothing after that removes it as a
      dependency. */
  ghost predicate Reinstalled(mains: seq<RefAction>, related: seq<seq<RefAction>>, i: nat, r: Ref)
    requires |related| == |mains| && i < |mains|
  {
    exists j :: i < j < |mains| && mains[j].ref == r && mains[j].action == Install
             && !RemovedLater(mains, related, j + 1, r)
  }

  /** What the list as a whole keeps on the ref of a dependency. */
  ghost function Final(mains: seq<RefAction>, related: seq<seq<RefAction>>, i: nat, d: RefAction): (a: RefAction)
    requires |related| == |mains| && i < |mains| && d in related[i]
    ensures a.ref == d.ref && a in WithDependencies(mains, related) && a in Assemble(mains, related, |mains|)
    ensures Keeper(Assemble(mains, related, |mains|), d.ref) == Keep(a)
  {
    RelatedMentioned(mains, related, i, d);
    KeeperExists(Assemble(mains, related, |mains|), d.ref);
    InResultIff(mains, related, Keeper(Assemble(mains, related, |mains|), d.ref).action);
    Keeper(Assemble(mains, related, |mains|), d.ref).action
  }

  lemma {:induction false} FinalDecides(mains: seq<RefAction>, related: seq<seq<RefAction>>, i: nat, d: RefAction)
    requires |related| == |mains| && i < |mains| && d in related[i] && Removes(d)
    ensures Final(mains, related, i, d).action != Update
  {
    RemovalAssembled(mains, related, i, d);
    StaysAssembled(mains, related, i + 1, |mains|, d);
    DecisiveKeeper(Assemble(mains, related, |mains|), d);
  }

  /** What stands for a removed dependency right after the main action is that
      main action's own removal of it. */
  lemma {:induction false} StandingRemoval(mains: seq<RefAction>, related: seq<seq<RefAction>>, i: nat, d: RefAction)
    requires MainsGood(mains) && RelatedGood(mains, related) && i < |mains| && Removes(mains[i]) && d in related[i]
    ensures (var x := Keeper(Assemble(mains, related, i + 1), d.ref); x.Keep? && x.action in related[i])
  {
    var added := AssembleStep(mains, related, i);
    assert Removes(d) && d in added;
    KeeperConcat(Assemble(mains, related, i) + [mains[i]], added, d.ref);
    DecisiveKeeper(added, d);
  }

  /** The last word on a removed dependency comes from the main action itself or
      a later one. */
  lemma {:induction false} FinalStem(mains: seq<RefAction>, related: seq<seq<RefAction>>, i: nat, d: RefAction)
    returns (k: nat)
    requires MainsGood(mains) && RelatedGood(mains, related) && i < |mains| && Removes(mains[i]) && d in related[i]
    ensures (var end := Final(mains, related, i, d);
             && i <= k < |mains|
             && ((end in related[k] && Removes(end)) || (i < k && end == mains[k])))
  {
    var end := Final(mains, related, i, d);
    RelatedMentioned(mains, related, i, d);
    StandsIff(mains, related, i + 1, d.ref);
    StandingRemoval(mains, related, i, d);
    if Overridden(mains, related, i + 1, d.ref) {
      k :| i + 1 <= k < |mains| && (end == mains[k] || (end in related[k] && Removes(end)));
    } else {
      k := i;
    }
  }

  lemma {:induction false} InstallStands(mains: seq<RefAction>, related: seq<seq<RefAction>>, j: nat)
    requires MainsGood(mains) && RelatedGood(mains, related) && j < |mains| && mains[j].action == Install
    ensures Keeper(Assemble(mains, related, |mains|), mains[j].ref) == Keep(mains[j]) <==>
              !RemovedLater(mains, related, j + 1, mains[j].ref)
  {
    MainKeeperIff(mains, related, j);
  }

  /** The ref of a removed dependency ends up removed exactly if it is not
      installed again. */
  lemma {:induction false} RemovedUnlessReinstalled(mains: seq<RefAction>, related: seq<seq<RefAction>>, i: nat,
                                                    d: RefAction)
    requires MainsGood(mains) && RelatedGood(mains, related) && i < |mains| && Removes(mains[i]) && d in related[i]
    ensures Removes(Final(mains, related, i, d)) <==> !Reinstalled(mains, related, i, d.ref)
  {
    var end := Final(mains, related, i, d);
    FinalDecides(mains, related, i, d);
    if Reinstalled(mains, related, i, d.ref) {
      var j :| i < j < |mains| && mains[j].ref == d.ref && mains[j].action == Install
            && !RemovedLater(mains, related, j + 1, d.ref);
      InstallStands(mains, related, j);
    }
    if !Removes(end) {
      var k := FinalStem(mains, related, i, d);
      InstallStands(mains, related, k);
    }
  }

  lemma {:induction false} SplitAtFirst(s: seq<RefAction>, y: RefAction)
    returns (before: seq<RefAction>, after: seq<RefAction>)
    requires y in s
    ensures s == before + [y] + after && y !in before
  {
    if s[0] == y {
      before, after := [], s[1..];
    } else {
      before, after := SplitAtFirst(s[1..], y);
      assert s == [s[0]] + s[1..];
      assert [s[0]] + (before + [y] + after) == ([s[0]] + before) + [y] + after;
      before := [s[0]] + before;
    }
  }

  lemma {:induction false} InFront(before: seq<RefAction>, after: seq<RefAction>, y: RefAction,
                                   front: seq<RefAction>, rest: seq<RefAction>, a: RefAction)
    requires before + [y] + after == front + rest && y !in front && a in front
    ensures a in before
  {
    var s := front + rest;
    var l :| 0 <= l < |front| && front[l] == a;
    assert (before + [y] + after)[|before|] == s[|before|] == y;
    assert forall k :: 0 <= k < |front| ==> s[k] == front[k];
    assert |front| <= |before|;
    assert before[l] == s[l] == a;
  }

  lemma {:induction false} WithinFront(before: seq<RefAction>, after: seq<RefAction>, y: RefAction,
                                       front: seq<RefAction>, rest: seq<RefAction>, a: RefAction)
    requires before + [y] + after == front + rest && y in front && y !in before && a in before
    ensures a in front
  {
    var s := front + rest;
    var l :| 0 <= l < |front| && front[l] == y;
    assert s[l] == y && forall k :: 0 <= k < |before| ==> s[k] == before[k];
    assert |before| <= l;
    var k :| 0 <= k < |before| && before[k] == a;
    assert front[k] == s[k] == a;
  }

  /** Main action i is in front of what first comes with a later one. */
  lemma {:induction false} AroundLater(mains: seq<RefAction>, related: seq<seq<RefAction>>, i: nat, k: nat,
                                       y: RefAction)
    returns (before: seq<RefAction>, after: seq<RefAction>)
    requires MainsGood(mains) && RelatedGood(mains, related) && i < k < |mains|
    requires y == mains[k] || (y in related[k] && Removes(y))
    ensures Assemble(mains, related, |mains|) == before + [y] + after && y !in before && mains[i] in before
    ensures forall a :: a in before ==> a in Assemble(mains, related, k + 1)
  {
    hide MainsGood, Assemble;
    if y == mains[k] {
      MainAssembled(mains, related, k);
    } else {
      RemovalAssembled(mains, related, k, y);
    }
    StaysAssembled(mains, related, k + 1, |mains|, y);
    before, after := SplitAtFirst(Assemble(mains, related, |mains|), y);
    var rest := AssembleTail(mains, related, i + 1, |mains|);
    MainAssembled(mains, related, i);
    NotEarlier(mains, related, i + 1, k, y);
    InFront(before, after, y, Assemble(mains, related, i + 1), rest, mains[i]);
    forall a | a in before ensures a in Assemble(mains, related, k + 1) {
      var later := AssembleTail(mains, related, k + 1, |mains|);
      WithinFront(before, after, y, Assemble(mains, related, k + 1), later, a);
    }
  }

  /** An uninstall is in front of the removals that it relates to. */
  lemma {:induction false} AroundOwn(mains: seq<RefAction>, related: seq<seq<RefAction>>, i: nat, y: RefAction)
    returns (before: seq<RefAction>, after: seq<RefAction>)
    requires MainsGood(mains) && RelatedGood(mains, related) && i < |mains| && Removes(mains[i])
    requires y in related[i] && Removes(y)
    ensures Assemble(mains, related, |mains|) == before + [y] + after && y !in before && mains[i] in before
    ensures forall a :: a in before ==> a in Assemble(mains, related, i + 1)
  {
    hide MainsGood, Assemble;
    RemovalAssembled(mains, related, i, y);
    StaysAssembled(mains, related, i + 1, |mains|, y);
    before, after := SplitAtFirst(Assemble(mains, related, |mains|), y);
    MainBehind(mains, related, i, y, before, after);
    forall a | a in before ensures a in Assemble(mains, related, i + 1) {
      var rest := AssembleTail(mains, related, i + 1, |mains|);
      WithinFront(before, after, y, Assemble(mains, related, i + 1), rest, a);
    }
  }

  /** Around an action that stems from main action k: main action i is in front
      of it, and what is in front stems from no later one. */
  lemma {:induction false} AroundFinal(mains: seq<RefAction>, related: seq<seq<RefAction>>, i: nat, k: nat,
                                       y: RefAction)
    returns (before: seq<RefAction>, after: seq<RefAction>)
    requires MainsGood(mains) && RelatedGood(mains, related) && i <= k < |mains| && Removes(mains[i])
    requires (y in related[k] && Removes(y)) || (i < k && y == mains[k])
    ensures Assemble(mains, related, |mains|) == before + [y] + after && y !in before && mains[i] in before
    ensures forall a :: a in before ==> a in Assemble(mains, related, k + 1)
  {
    hide MainsGood, RelatedGood, Assemble;
    if i < k {
      before, after := AroundLater(mains, related, i, k, y);
    } else {
      before, after := AroundOwn(mains, related, i, y);
    }
  }

  lemma {:induction false} UninstallFront(mains: seq<RefAction>, related: seq<seq<RefAction>>, i: nat)
    returns (rest: seq<RefAction>)
    requires |related| == |mains| && i < |mains| && Removes(mains[i])
    ensures Assemble(mains, related, |mains|) == (Assemble(mains, related, i) + [mains[i]]) + rest
  {
    var added := AssembleStep(mains, related, i);
    var later := AssembleTail(mains, related, i + 1, |mains|);
    rest := added + later;
    ConcatAssociates(Assemble(mains, related, i) + [mains[i]], added, later);
  }

  lemma {:induction false} MainBehind(mains: seq<RefAction>, related: seq<seq<RefAction>>, i: nat, y: RefAction,
                                      before: seq<RefAction>, after: seq<RefAction>)
    requires MainsGood(mains) && RelatedGood(mains, related) && i < |mains| && Removes(mains[i])
    requires y in related[i]
    requires Assemble(mains, related, |mains|) == before + [y] + after
    ensures mains[i] in before
  {
    hide MainsGood, Assemble;
    var front := Assemble(mains, related, i) + [mains[i]];
    var rest := UninstallFront(mains, related, i);
    NotEarlier(mains, related, i, i, y);
    MainApart(mains, related, i);
    assert mains[i] in front && y !in front;
    InFront(before, after, y, front, rest, mains[i]);
  }

  /** A main action that uninstalls what main action i relates to, with the same
      serial, which an action that does not uninstall has too. */
  ghost predicate MixedTie(mains: seq<RefAction>, related: seq<seq<RefAction>>, i: nat, end: RefAction)
    requires |related| == |mains| && i < |mains|
  {
    && !end.isDependency && end.serial == mains[i].serial
    && exists a :: a in Assemble(mains, related, |mains|) && a.serial == end.serial && !Removes(a)
  }

  /** The ref of a removed dependency ends up removed exactly if no later main
      action installs it for good.  The removal then follows every kept main
      action that relates to it, unless it is a main action tied with it and
      with actions of both kinds. */
  lemma {:induction false} RemovedDependencyComesLast(mains: seq<RefAction>, related: seq<seq<RefAction>>, i: nat,
                                                      d: RefAction)
    requires MainsGood(mains) && RelatedGood(mains, related) && i < |mains| && Removes(mains[i]) && d in related[i]
    ensures Removes(Final(mains, related, i, d)) <==> !Reinstalled(mains, related, i, d.ref)
    ensures (var end := Final(mains, related, i, d);
             MainKept(mains, related, i) && Removes(end) && !MixedTie(mains, related, i, end) ==>
               Precedes(WithDependencies(mains, related), mains[i], end))
  {
    hide MainKept, MixedTie, Reinstalled, Assemble;
    var end := Final(mains, related, i, d);
    RemovedUnlessReinstalled(mains, related, i, d);
    if MainKept(mains, related, i) && Removes(end) && !MixedTie(mains, related, i, end) {
      var k := FinalStem(mains, related, i, d);
      MainKeeperIff(mains, related, i);
      if end in related[k] && Removes(end) {
        RemovalBehind(mains, related, i, k, end);
      } else {
        UninstallBehind(mains, related, i, k, end);
      }
    }
  }

  lemma {:induction false} RemovalBehind(mains: seq<RefAction>, related: seq<seq<RefAction>>, i: nat, k: nat,
                                         end: RefAction)
    requires MainsGood(mains) && RelatedGood(mains, related) && i <= k < |mains| && Removes(mains[i])
    requires end in related[k] && Removes(end)
    requires Keeper(Assemble(mains, related, |mains|), end.ref) == Keep(end)
    requires Keeper(Assemble(mains, related, |mains|), mains[i].ref) == Keep(mains[i])
    ensures Precedes(WithDependencies(mains, related), mains[i], end)
  {
    hide Assemble, Keeper, Compare;
    var before, after := AroundFinal(mains, related, i, k, end);
    NoneAbove(mains, related, k, end, before);
    SquashKeepsAhead(Assemble(mains, related, |mains|), before, end, after, mains[i]);
  }

  lemma {:induction false} AssembledFits(mains: seq<RefAction>, related: seq<seq<RefAction>>, s: seq<RefAction>)
    requires MainsGood(mains) && RelatedGood(mains, related)
    requires forall a :: a in s ==> a in Assemble(mains, related, |mains|)
    ensures SpreadFits(s)
  {
    hide Assemble, Compare;
    forall a, b | a in s && b in s ensures a.serial as int - b.serial as int <= MAX_INT32 {
      var i := AssembledSerial(mains, related, a);
      var j := AssembledSerial(mains, related, b);
      assert mains[i] in mains && mains[j] in mains;
    }
  }

  lemma {:induction false} AssembledSerial(mains: seq<RefAction>, related: seq<seq<RefAction>>, a: RefAction)
    returns (i: nat)
    requires RelatedGood(mains, related) && a in Assemble(mains, related, |mains|)
    ensures i < |mains| && a.serial == mains[i].serial
  {
    AssembledStems(mains, related, |mains|, a);
    i :| 0 <= i < |mains| && StemsFrom(mains, related, i, a);
  }

  lemma {:induction false} PrecedesBySerial(s: seq<RefAction>, x: RefAction, y: RefAction)
    requires SerialsAscend(s) && x in s && y in s && x.serial < y.serial
    ensures Precedes(s, x, y)
  {
    var i :| 0 <= i < |s| && s[i] == x;
    var j :| 0 <= j < |s| && s[j] == y;
    PrecedesAt(s, i, j);
  }

  lemma {:induction false} DividedWithoutMix(s: seq<RefAction>, y: RefAction)
    requires SpreadFits(s) && y in s && Removes(y) && !y.isDependency
    requires forall a :: a in s && a.serial == y.serial ==> Removes(a)
    ensures Divides(s, y)
  {
    forall a, b | a in s && b in s && Compare(a, y) <= 0 && Compare(b, y) > 0
      ensures Compare(a, b) <= 0 && Compare(b, a) > 0
    {
      FitsSymmetric(s, a, y);
      FitsSymmetric(s, b, y);
      FitsSymmetric(s, a, b);
    }
  }

  lemma {:induction false} UninstallBehind(mains: seq<RefAction>, related: seq<seq<RefAction>>, i: nat, k: nat,
                                           end: RefAction)
    requires MainsGood(mains) && RelatedGood(mains, related) && i < k < |mains| && Removes(mains[i])
    requires end == mains[k] && Removes(end) && !MixedTie(mains, related, i, end)
    requires Keeper(Assemble(mains, related, |mains|), end.ref) == Keep(end)
    requires Keeper(Assemble(mains, related, |mains|), mains[i].ref) == Keep(mains[i])
    ensures Precedes(WithDependencies(mains, related), mains[i], end)
  {
    hide Assemble, Keeper, Compare;
    var s := Assemble(mains, related, |mains|);
    var all := Collect(s, s);
    CollectDistinct(s, s);
    AssembledFits(mains, related, all);
    var before, after := AroundFinal(mains, related, i, k, end);
    var p := CollectedBehind(s, before, end, after, mains[i]);
    assert mains[i] in all && end in all;
    if mains[i].serial < end.serial {
      SortAscends(all);
      SortKeepsMember(all, mains[i]);
      SortKeepsMember(all, end);
      PrecedesBySerial(Sort(all), mains[i], end);
    } else {
      DividedWithoutMix(all, end);
      TiedUninstalls(mains[i], end);
      SortStableWhereDivided(all, p, mains[i]);
    }
  }

  lemma {:induction false} TiedUninstalls(a: RefAction, b: RefAction)
    requires Removes(a) && Removes(b) && !a.isDependency && !b.isDependency && a.serial == b.serial
    ensures Compare(a, b) <= 0
  {
  }

  // --------------------------------------------- what is in place, and when

  /** What a list performs before it comes to a. */
  ghost function Ahead(s: seq<RefAction>, a: RefAction): seq<RefAction> {
    if s == [] || s[0] == a then [] else [s[0]] + Ahead(s[1..], a)
  }

  lemma {:induction false} AheadIsPrefix(s: seq<RefAction>, a: RefAction)
    ensures |Ahead(s, a)| <= |s| && Ahead(s, a) == s[..|Ahead(s, a)|]
    ensures a in s ==> |Ahead(s, a)| < |s| && s[|Ahead(s, a)|] == a
    ensures a !in Ahead(s, a)
  {
    if s != [] && s[0] != a {
      AheadIsPrefix(s[1..], a);
      assert s == [s[0]] + s[1..];
    }
  }

  lemma {:induction false} AheadIff(s: seq<RefAction>, x: RefAction, y: RefAction)
    requires DistinctRefs(s) && x in s && y in s
    ensures x in Ahead(s, y) <==> Precedes(s, x, y)
  {
    AheadIsPrefix(s, y);
    var j := |Ahead(s, y)|;
    if x in Ahead(s, y) {
      var i :| 0 <= i < j && Ahead(s, y)[i] == x;
      assert s[..j][i] == s[i] == x;
      PrecedesAt(s, i, j);
    }
    if Precedes(s, x, y) {
      var k, l := PrecedesIndices(s, x, y);
      assert s[k].ref != s[l].ref && l == j;
      assert s[..j][k] == x;
    }
  }

  /** What a stands for does to its ref. */
  predicate LeavesInstalled(a: RefAction, m: Installation) {
    match a.action
    case Install => true
    case Update => a.ref in m
    case Uninstall => false
  }

  /** With one action per ref, a ref is there when a list comes to y as the
      action on it leaves it, if that comes first, and as it was otherwise. */
  lemma {:induction false} ThereAhead(s: seq<RefAction>, x: RefAction, y: RefAction, m: Installation)
    requires DistinctRefs(s) && x in s && y in s
    ensures x.ref in Perform(Ahead(s, y), m) <==> if Precedes(s, x, y) then LeavesInstalled(x, m) else x.ref in m
  {
    var front := Ahead(s, y);
    AheadIff(s, x, y);
    PerformByVerdict(front, m, x.ref);
    FrontHasOnly(s, x, y);
    if x in front {
      VerdictOfDistinct(front, x);
    } else {
      UnmentionedUntouched(front, x.ref);
    }
  }

  lemma {:induction false} FrontHasOnly(s: seq<RefAction>, x: RefAction, y: RefAction)
    requires DistinctRefs(s) && x in s
    ensures DistinctRefs(Ahead(s, y)) && (x !in Ahead(s, y) ==> !Mentions(Ahead(s, y), x.ref))
  {
    AheadIsPrefix(s, y);
    var front := Ahead(s, y);
    assert forall i :: 0 <= i < |front| ==> front[i] == s[i];
    if Mentions(front, x.ref) {
      var a :| a in front && a.ref == x.ref;
      SameRefSame(s, a, x);
    }
  }

  lemma {:induction false} SameRefSame(s: seq<RefAction>, a: RefAction, b: RefAction)
    requires DistinctRefs(s) && a in s && b in s && a.ref == b.ref
    ensures a == b
  {
  }

  // ------------------------------------- later actions that take a ref over

  /** A dependency that is uninstalled, with this serial. */
  ghost predicate HasTiedRemoval(mains: seq<RefAction>, related: seq<seq<RefAction>>, serial: int32)
    requires |related| == |mains|
  {
    exists e :: e in Assemble(mains, related, |mains|) && e.isDependency && Removes(e) && e.serial == serial
  }

  /** An uninstall from a later main action comes before main action i, with the
      same serial. */
  ghost predicate Overtakes(mains: seq<RefAction>, related: seq<seq<RefAction>>, i: nat, end: RefAction)
    requires |related| == |mains| && i < |mains|
  {
    && Removes(end) && !end.isDependency && end.serial == mains[i].serial
    && Precedes(WithDependencies(mains, related), end, mains[i])
  }

  lemma {:induction false} LaterDependencyFollows(mains: seq<RefAction>, related: seq<seq<RefAction>>, i: nat, k: nat,
                                                  y: RefAction)
    requires MainsGood(mains) && RelatedGood(mains, related) && i < k < |mains| && y in related[k] && Removes(y)
    requires Keeper(Assemble(mains, related, |mains|), y.ref) == Keep(y)
    requires Keeper(Assemble(mains, related, |mains|), mains[i].ref) == Keep(mains[i])
    ensures Precedes(WithDependencies(mains, related), mains[i], y)
  {
    hide Assemble, Keeper, Compare;
    var before, after := AroundLater(mains, related, i, k, y);
    NoneAbove(mains, related, k, y, before);
    SquashKeepsAhead(Assemble(mains, related, |mains|), before, y, after, mains[i]);
  }

  lemma {:induction false} LaterSerialFollows(mains: seq<RefAction>, related: seq<seq<RefAction>>, i: nat, y: RefAction)
    requires MainsGood(mains) && RelatedGood(mains, related) && i < |mains| && mains[i].serial < y.serial
    requires Keeper(Assemble(mains, related, |mains|), y.ref) == Keep(y)
    requires Keeper(Assemble(mains, related, |mains|), mains[i].ref) == Keep(mains[i])
    ensures Precedes(WithDependencies(mains, related), mains[i], y)
  {
    hide Assemble, Keeper, Compare, MainsGood;
    var s := Assemble(mains, related, |mains|);
    CollectDistinct(s, s);
    AssembledFits(mains, related, Collect(s, s));
    SortAscends(Collect(s, s));
    InResultIff(mains, related, mains[i]);
    InResultIff(mains, related, y);
    PrecedesBySerial(WithDependencies(mains, related), mains[i], y);
  }

  lemma {:induction false} TiedMainFollows(mains: seq<RefAction>, related: seq<seq<RefAction>>, i: nat, k: nat)
    requires MainsGood(mains) && RelatedGood(mains, related) && i < k < |mains| && Removes(mains[k])
    requires mains[i].serial == mains[k].serial && !HasTiedRemoval(mains, related, mains[k].serial)
    requires Keeper(Assemble(mains, related, |mains|), mains[k].ref) == Keep(mains[k])
    requires Keeper(Assemble(mains, related, |mains|), mains[i].ref) == Keep(mains[i])
    ensures Precedes(WithDependencies(mains, related), mains[i], mains[k])
  {
    hide Assemble, Keeper, Compare;
    var before, after := AroundLater(mains, related, i, k, mains[k]);
    forall a | a in before ensures Compare(a, mains[k]) <= 0 {
      NotAboveUninstall(mains, related, k, a);
    }
    SquashKeepsAhead(Assemble(mains, related, |mains|), before, mains[k], after, mains[i]);
  }

  lemma {:induction false} NotAboveUninstall(mains: seq<RefAction>, related: seq<seq<RefAction>>, k: nat, a: RefAction)
    requires MainsGood(mains) && RelatedGood(mains, related) && k < |mains| && Removes(mains[k])
    requires a in Assemble(mains, related, k + 1) && !HasTiedRemoval(mains, related, mains[k].serial)
    ensures Compare(a, mains[k]) <= 0
  {
    hide Compare, Assemble;
    StaysAssembled(mains, related, k + 1, |mains|, a);
    AssembledStems(mains, related, k + 1, a);
    var j :| 0 <= j < k + 1 && StemsFrom(mains, related, j, a);
    SerialOfStem(mains, related, j, a);
    MainsAscend(mains, j, k);
    NotAbove(a, mains[k]);
  }

  lemma {:induction false} SerialOfStem(mains: seq<RefAction>, related: seq<seq<RefAction>>, j: nat, a: RefAction)
    requires RelatedGood(mains, related) && j < |mains| && StemsFrom(mains, related, j, a)
    ensures a.serial == mains[j].serial
  {
  }

  lemma {:induction false} MainsAscend(mains: seq<RefAction>, j: nat, k: nat)
    requires MainsGood(mains) && j <= k < |mains|
    ensures !mains[k].isDependency
    ensures mains[j].serial <= mains[k].serial && mains[k].serial as int - mains[j].serial as int <= MAX_INT32
  {
    assert mains[j] in mains && mains[k] in mains;
  }

  lemma {:induction false} NotAbove(a: RefAction, y: RefAction)
    requires a.serial <= y.serial && y.serial as int - a.serial as int <= MAX_INT32
    requires Removes(y) && !y.isDependency
    requires a.serial == y.serial ==> !(a.isDependency && Removes(a))
    ensures Compare(a, y) <= 0
  {
  }

  /** What takes a ref over after main action i comes after it, unless it is an
      uninstall of the same serial that overtakes. */
  lemma {:induction false} TakerFollows(mains: seq<RefAction>, related: seq<seq<RefAction>>, i: nat, end: RefAction)
    requires MainsGood(mains) && RelatedGood(mains, related) && i < |mains|
    requires MainOrRemoval(mains, related, i + 1, |mains|, end)
    requires Keeper(Assemble(mains, related, |mains|), end.ref) == Keep(end)
    requires Keeper(Assemble(mains, related, |mains|), mains[i].ref) == Keep(mains[i])
    ensures Precedes(WithDependencies(mains, related), end, mains[i]) ==>
              Overtakes(mains, related, i, end) && HasTiedRemoval(mains, related, mains[i].serial)
  {
    var w := WithDependencies(mains, related);
    SquashKeepsOnePerRef(Assemble(mains, related, |mains|));
    hide Assemble, Keeper, Compare, HasTiedRemoval;
    if Precedes(w, end, mains[i]) {
      PrecedesOneWay(w, end, mains[i]);
      if !Removes(end) {
        LaterMainFollows(mains, related, i, end);
      }
      var k :| i + 1 <= k < |mains| && (end == mains[k] || (end in related[k] && Removes(end)));
      if end in related[k] {
        LaterDependencyFollows(mains, related, i, k, end);
      } else if mains[i].serial != end.serial {
        assert mains[i].serial <= mains[k].serial;
        LaterSerialFollows(mains, related, i, end);
      } else if !HasTiedRemoval(mains, related, end.serial) {
        TiedMainFollows(mains, related, i, k);
      }
    }
  }

  /** An action is performed only once what it depends on is in place: for every
      machine, a dependency of a kept install or update is there just before it
      as the action that stands for it by then leaves it; if a later action
      takes it over, as it was on the machine, except that the later one, an
      uninstall of the same serial, may come first. */
  lemma {:induction false} DependencyInPlaceIff(mains: seq<RefAction>, related: seq<seq<RefAction>>, i: nat,
                                                d: RefAction, m: Installation)
    requires MainsGood(mains) && RelatedGood(mains, related) && i < |mains| && !Removes(mains[i]) && d in related[i]
    requires MainKept(mains, related, i)
    ensures d.ref in Perform(Ahead(WithDependencies(mains, related), mains[i]), m) <==>
              if Overridden(mains, related, i + 1, d.ref) then
                d.ref in m && !Overtakes(mains, related, i, Final(mains, related, i, d))
              else LeavesInstalled(Standing(mains, related, i, d).action, m)
  {
    hide MainKept, Overridden, Assemble, Keeper;
    var w, end := WithDependencies(mains, related), Final(mains, related, i, d);
    MainKeeperIff(mains, related, i);
    InResultIff(mains, related, mains[i]);
    SquashKeepsOnePerRef(Assemble(mains, related, |mains|));
    ThereAhead(w, end, mains[i], m);
    RelatedMentioned(mains, related, i, d);
    StandsIff(mains, related, i + 1, d.ref);
    if Overridden(mains, related, i + 1, d.ref) {
      TakerFollows(mains, related, i, end);
    } else {
      OrderHolds(mains, related, i, d);
    }
  }

  /** Where the dependency is missing, it is in place in time exactly if no later
      action takes it over and the action that stands for it installs it. */
  lemma {:induction false} MissingDependencyInPlaceIff(mains: seq<RefAction>, related: seq<seq<RefAction>>, i: nat,
                                                       d: RefAction, m: Installation)
    requires MainsGood(mains) && RelatedGood(mains, related) && i < |mains| && !Removes(mains[i]) && d in related[i]
    requires MainKept(mains, related, i) && d.ref !in m
    ensures d.ref in Perform(Ahead(WithDependencies(mains, related), mains[i]), m) <==>
              && !Overridden(mains, related, i + 1, d.ref)
              && Standing(mains, related, i, d).action.action == Install
  {
    DependencyInPlaceIff(mains, related, i, d, m);
  }

  /** What an uninstall relates to is there just before it exactly if it was on
      the machine, short of a tie of main actions of both kinds. */
  lemma {:induction false} RemovedDependencyOutlasts(mains: seq<RefAction>, related: seq<seq<RefAction>>, i: nat,
                                                     d: RefAction, m: Installation)
    requires MainsGood(mains) && RelatedGood(mains, related) && i < |mains| && Removes(mains[i]) && d in related[i]
    requires MainKept(mains, related, i) && !MixedTie(mains, related, i, Final(mains, related, i, d))
    ensures d.ref in Perform(Ahead(WithDependencies(mains, related), mains[i]), m) <==> d.ref in m
  {
    hide MainKept, MixedTie, Assemble, Keeper;
    var w, end := WithDependencies(mains, related), Final(mains, related, i, d);
    MainKeeperIff(mains, related, i);
    InResultIff(mains, related, mains[i]);
    SquashKeepsOnePerRef(Assemble(mains, related, |mains|));
    ThereAhead(w, end, mains[i], m);
    FinalFollows(mains, related, i, d);
    PrecedesOneWay(w, mains[i], end);
  }

  lemma {:induction false} FinalFollows(mains: seq<RefAction>, related: seq<seq<RefAction>>, i: nat, d: RefAction)
    requires MainsGood(mains) && RelatedGood(mains, related) && i < |mains| && Removes(mains[i]) && d in related[i]
    requires MainKept(mains, related, i) && !MixedTie(mains, related, i, Final(mains, related, i, d))
    ensures Precedes(WithDependencies(mains, related), mains[i], Final(mains, related, i, d))
  {
    hide MainKept, MixedTie, Assemble, Keeper;
    var end := Final(mains, related, i, d);
    RemovedDependencyComesLast(mains, related, i, d);
    if !Removes(end) {
      MainKeeperIff(mains, related, i);
      var k := FinalStem(mains, related, i, d);
      LaterMainFollows(mains, related, i, end);
    }
  }

  // -------------------------------------------------------------- examples

  /** An app listed before its own runtime, both to be installed: the runtime's
      own action takes over from the dependency and comes after the app. */
  lemma {:induction false} RuntimeComesTooLate(app: RefAction, runtime: RefAction, d: RefAction, m: Installation)
    requires app.action == runtime.action == d.action == Install && app.ref != runtime.ref == d.ref
    requires d.isDependency && !app.isDependency && !runtime.isDependency
    requires d.serial == app.serial < runtime.serial && runtime.serial as int - app.serial as int <= MAX_INT32
    ensures MainsGood([app, runtime]) && RelatedGood([app, runtime], [[d], []])
    ensures WithDependencies([app, runtime], [[d], []]) == [app, runtime]
    ensures d.ref !in m ==> d.ref !in Perform(Ahead([app, runtime], app), m)
  {
    hide Sort, Collect, Assemble;
    AppThenRuntime(app, runtime, d);
    KeepersOfOverlap(d, app, runtime);
    TwoInOrder(app, runtime);
  }

  lemma {:induction false} AppThenRuntime(app: RefAction, runtime: RefAction, d: RefAction)
    requires app.action == runtime.action == d.action == Install && app.ref != d.ref
    ensures Assemble([app, runtime], [[d], []], 2) == [d, app, runtime]
  {
    var mains, related := [app, runtime], [[d], []];
    assert AddRelated([], [d], 0) == [] && AddRelated([], [d], 1) == [d];
    assert Assemble(mains, related, 0) == [] && Assemble(mains, related, 1) == [d, app];
    assert AddRelated([d, app], [], 0) == [d, app];
  }

  lemma {:induction false} TwoInOrder(a: RefAction, b: RefAction)
    requires Compare(a, b) <= 0
    ensures Sort([a, b]) == [a, b]
  {
    assert [a, b][..1] == [a] && [a, b][1..] == [b];
    assert Sort([a]) == [a] && Sort([b]) == [b];
    assert Merge([a], [b]) == [a] + Merge([a][1..], [b]) && [a][1..] == [] && Merge([], [b]) == [b];
  }

  lemma {:induction false} KeepersOfOverlap(d: RefAction, app: RefAction, runtime: RefAction)
    requires app.action == runtime.action == d.action == Install && app.ref != runtime.ref == d.ref && d != runtime
    ensures Collect([d, app, runtime], [d, app, runtime]) == [app, runtime]
  {
    var s := [d, app, runtime];
    assert s[..2] == [d, app] && [d, app][..1] == [d] && [d][..0] == [];
    assert Keeper(s, app.ref) == Keep(app) && Keeper(s, d.ref) == Keep(runtime);
    assert Collect(s, [d]) == [] && Collect(s, [d, app]) == [app];
  }

  /** The runtime's own action comes first, but only updates or uninstalls it:
      the dependency is left out all the same, and the app is installed without
      it. */
  lemma {:induction false} RuntimeOnlyMentioned(runtime: RefAction, app: RefAction, d: RefAction, m: Installation)
    requires runtime.action != Install && app.action == d.action == Install && app.ref != runtime.ref == d.ref
    requires d.isDependency && !app.isDependency && !runtime.isDependency
    requires runtime.serial < app.serial == d.serial && app.serial as int - runtime.serial as int <= MAX_INT32
    ensures MainsGood([runtime, app]) && RelatedGood([runtime, app], [[], [d]])
    ensures WithDependencies([runtime, app], [[], [d]]) == [runtime, app]
    ensures runtime.action == Uninstall || d.ref !in m ==>
              app.ref in Perform([runtime, app], m) && d.ref !in Perform([runtime, app], m)
  {
    TwoMainsGood(runtime, app);
    SecondNeeds(runtime, app, d);
    MentionedThenApp(runtime, app, d);
    TwoDistinct(runtime, app);
    InOrderBySerial(runtime, app);
    TwoInOrder(runtime, app);
    TwoPerformed(runtime, app, m);
    hide Sort, Collect, Assemble, Compare, MainsGood, RelatedGood, Perform;
  }

  lemma {:induction false} TwoMainsGood(first: RefAction, second: RefAction)
    requires first.ref != second.ref && !first.isDependency && !second.isDependency
    requires first.serial < second.serial && second.serial as int - first.serial as int <= MAX_INT32
    ensures MainsGood([first, second])
  {
    var mains := [first, second];
    assert forall a :: a in mains ==> a == first || a == second;
  }

  lemma {:induction false} SecondNeeds(first: RefAction, second: RefAction, d: RefAction)
    requires !Removes(second) && !Removes(d) && d.ref != second.ref && d.isDependency && d.serial == second.serial
    ensures RelatedGood([first, second], [[], [d]])
  {
    assert forall a :: a in [d] ==> a == d;
  }

  lemma {:induction false} TwoPerformed(first: RefAction, second: RefAction, m: Installation)
    ensures Perform([first, second], m) == Effect(second, Effect(first, m))
  {
    PerformConcat([first], [second], m);
    assert [first] + [second] == [first, second] && [first][..0] == [second][..0] == [];
  }

  lemma {:induction false} InOrderBySerial(a: RefAction, b: RefAction)
    requires a.serial < b.serial && b.serial as int - a.serial as int <= MAX_INT32
    ensures Compare(a, b) <= 0
  {
  }

  lemma {:induction false} MentionedThenApp(runtime: RefAction, app: RefAction, d: RefAction)
    requires app.action == d.action == Install && runtime.ref == d.ref
    ensures Assemble([runtime, app], [[], [d]], 2) == [runtime, app]
  {
    var mains, related := [runtime, app], [[], [d]];
    assert AddRelated([], [], 0) == [] && AddRelated([runtime], [], 0) == [runtime];
    assert Assemble(mains, related, 0) == [] && Assemble(mains, related, 1) == [runtime];
    assert [runtime][0].ref == d.ref && AddRelated([runtime], [d], 0) == [runtime];
    assert AddRelated([runtime], [d], 1) == [runtime];
  }

  lemma {:induction false} TwoDistinct(a: RefAction, b: RefAction)
    requires a.ref != b.ref
    ensures Collect([a, b], [a, b]) == [a, b]
  {
    hide Collect, Keeper;
    forall x | x in [a, b] ensures Keeper([a, b], x.ref) == Keep(x) {
      KeeperOfDistinct([a, b], x);
    }
    CollectKeepers([a, b], [a, b]);
  }

  /** An uninstall and an install with a dependency, from two files, sharing a
      serial: the comparator is no weak order on what is assembled. */
  lemma {:induction false} TwoFilesClash(x: RefAction, y: RefAction, d: RefAction)
    requires x.action == Uninstall && y.action == d.action == Install
    requires x.ref != y.ref && d.ref != x.ref && d.ref != y.ref
    requires d.isDependency && !x.isDependency && !y.isDependency && x.serial == y.serial == d.serial
    ensures MainsGood([x, y]) && RelatedGood([x, y], [[], [d]])
    ensures !IsWeakOrder(Assemble([x, y], [[], [d]], 2))
  {
    UninstallThenInstall(x, y, d);
    var s := [x, d, y];
    assert x in s && d in s && y in s;
    assert Compare(y, x) <= 0 && Compare(x, d) <= 0 && Compare(y, d) > 0;
  }

  lemma {:induction false} UninstallThenInstall(x: RefAction, y: RefAction, d: RefAction)
    requires x.action == Uninstall && y.action == d.action == Install && d.ref != x.ref
    ensures Assemble([x, y], [[], [d]], 2) == [x, d, y]
  {
    var mains, related := [x, y], [[], [d]];
    assert AddRelated([x], [], 0) == [x] && Assemble(mains, related, 1) == [x];
    assert AddRelated([x], [d], 0) == [x] && !MentionsRef([x], d.ref) && related[1] == [d];
    assert AddRelated([x], [d], 1) == [x, d];
  }

  lemma {:induction false} CollectKeepers(s: seq<RefAction>, t: seq<RefAction>)
    requires DistinctRefs(t) && forall a :: a in t ==> Keeper(s, a.ref) == Keep(a)
    ensures Collect(s, t) == t
  {
    if t != [] {
      var u, last := t[..|t|-1], t[|t|-1];
      assert t == u + [last] && last in t;
      FrontKeepers(s, u, last);
      CollectKeepers(s, u);
      assert !MentionsRef(u, last.ref);
    }
  }

  lemma {:induction false} FrontKeepers(s: seq<RefAction>, u: seq<RefAction>, last: RefAction)
    requires DistinctRefs(u + [last]) && forall a :: a in u + [last] ==> Keeper(s, a.ref) == Keep(a)
    ensures DistinctRefs(u) && !MentionsRef(u, last.ref) && forall a :: a in u ==> Keeper(s, a.ref) == Keep(a)
  {
    forall i, j | 0 <= i < j < |u| ensures u[i].ref != u[j].ref {
      assert (u + [last])[i].ref != (u + [last])[j].ref;
    }
    forall i | 0 <= i < |u| ensures u[i].ref != last.ref {
      assert (u + [last])[i].ref != (u + [last])[|u|].ref;
    }
    assert forall a :: a in u ==> a in u + [last];
  }

  lemma {:induction false} CollectSkips(s: seq<RefAction>, t: seq<RefAction>, d: RefAction, u: seq<RefAction>)
    requires DistinctRefs(t + u) && forall a :: a in t + u ==> Keeper(s, a.ref) == Keep(a)
    requires Keeper(s, d.ref) != Keep(d)
    ensures Collect(s, t + [d] + u) == t + u
  {
    if u == [] {
      assert t + u == t && t + [d] + u == t + [d] && (t + [d])[..|t|] == t;
      CollectKeepers(s, t);
    } else {
      var v, last := u[..|u|-1], u[|u|-1];
      assert t + u == (t + v) + [last] && last in t + u;
      FrontKeepers(s, t + v, last);
      CollectSkips(s, t, d, v);
      assert (t + [d] + u)[..|t + [d] + u|-1] == t + [d] + v;
    }
  }

  lemma {:induction false} KeeperElsewhere(t: seq<RefAction>, d: RefAction, u: seq<RefAction>, r: Ref)
    requires d.ref != r
    ensures Keeper(t + [d] + u, r) == Keeper(t + u, r)
  {
    KeeperConcat(t, u, r);
    KeeperConcat(t, [d], r);
    KeeperConcat(t + [d], u, r);
    assert [d][..0] == [];
  }

  /** The keepers of t + [d] + u when d is taken over by an uninstall in u. */
  lemma {:induction false} KeepersAround(t: seq<RefAction>, d: RefAction, u: seq<RefAction>, y: RefAction)
    requires DistinctRefs(t + u) && y in u && y.ref == d.ref && y.action == Uninstall && y != d
    ensures forall a :: a in t + u ==> Keeper(t + [d] + u, a.ref) == Keep(a)
    ensures Keeper(t + [d] + u, d.ref) != Keep(d)
  {
    assert y in t + u;
    assert Keeper(t + [d] + u, y.ref) == Keep(y) by {
      KeeperOfDistinct(t + u, y);
      KeeperConcat(t, u, y.ref);
      KeeperConcat(t + [d], u, y.ref);
      DecisiveKeeper(u, y);
      assert Mentions(u, y.ref);
    }
    forall a | a in t + u ensures Keeper(t + [d] + u, a.ref) == Keep(a) {
      KeeperOfDistinct(t + u, a);
      if a.ref == d.ref {
        SameRefSame(t + u, a, y);
      } else {
        KeeperElsewhere(t, d, u, a.ref);
      }
    }
  }

  lemma {:induction false} FourInOrder(a: RefAction, b: RefAction, c: RefAction, d: RefAction)
    requires Compare(a, b) <= 0 && Compare(c, d) <= 0 && Compare(a, c) <= 0 && Compare(b, c) <= 0
    ensures Sort([a, b, c, d]) == [a, b, c, d]
  {
    hide Compare;
    TwoInOrder(a, b);
    TwoInOrder(c, d);
    assert [a, b, c, d][..2] == [a, b] && [a, b, c, d][2..] == [c, d];
    assert [a, b][1..] == [b] && [b][1..] == [] && Merge([], [c, d]) == [c, d];
    assert Merge([b], [c, d]) == [b] + Merge([], [c, d]);
    assert Merge([a, b], [c, d]) == [a] + Merge([b], [c, d]);
  }

  lemma {:induction false} Overtaking(left: seq<RefAction>, right: seq<RefAction>, k: nat)
    requires |left| == 4 && |right| == 4 && Sort(left) == left && Sort(right) == right
    requires Compare(left[0], right[0]) <= 0 && Compare(left[1], right[0]) > 0 && 1 <= k < 4
    ensures Precedes(Sort(left + right), right[0], left[k])
  {
    hide Compare;
    assert (left + right)[..4] == left && (left + right)[4..] == right;
    var rest := Merge(left[1..], right);
    assert Merge(left, right) == [left[0]] + rest && Merge(left, right)[1..] == rest;
    assert rest == [right[0]] + Merge(left[1..], right[1..]) && rest[1..] == Merge(left[1..], right[1..]);
    assert left[k] == left[1..][k - 1];
    MergeMember(left[1..], right[1..], left[k]);
  }

  lemma {:induction false} AddRemovals(out: seq<RefAction>, rel: seq<RefAction>, k: nat)
    requires k <= |rel| && forall a :: a in rel ==> Removes(a)
    ensures AddRelated(out, rel, k) == out + rel[..k]
  {
    if k > 0 {
      AddRemovals(out, rel, k - 1);
      assert rel[..k] == rel[..k - 1] + [rel[k - 1]];
    }
  }

  /** Four main actions with one serial, of which only the second installs; e
      and f are to be uninstalled too. */
  ghost predicate FourTied(m: seq<RefAction>, e: RefAction, f: seq<RefAction>) {
    && |m| == 4 && |f| == 3
    && m[0].action == m[2].action == m[3].action == Uninstall && m[1].action == Install
    && (forall a :: a in m ==> !a.isDependency && a.serial == e.serial)
    && (forall a :: a in [e] + f ==> a.action == Uninstall && a.isDependency && a.serial == e.serial)
    && DistinctRefs([m[0], e, m[1], m[2]] + ([m[3]] + f))
  }

  /** d names what the fourth of them uninstalls. */
  ghost predicate NamesFourth(m: seq<RefAction>, e: RefAction, d: RefAction) {
    |m| == 4 && d.ref == m[3].ref && d.isDependency && d.serial == e.serial
  }

  lemma {:induction false} FourApart(m: seq<RefAction>, e: RefAction, f: seq<RefAction>)
    requires FourTied(m, e, f)
    ensures DistinctRefs(m) && e.ref != m[0].ref && e.ref != m[3].ref
    ensures forall a :: a in f ==> a.ref != m[3].ref && a.ref != e.ref
  {
    var all, place := [m[0], e, m[1], m[2]] + ([m[3]] + f), [0, 2, 3, 4];
    assert forall i :: 0 <= i < 4 ==> all[place[i]] == m[i];
    forall i, j | 0 <= i < j < 4 ensures m[i].ref != m[j].ref {
      assert all[place[i]].ref != all[place[j]].ref;
    }
    forall a | a in f ensures a.ref != m[3].ref && a.ref != e.ref {
      var k :| 0 <= k < 3 && f[k] == a;
      assert all[1] == e && all[4] == m[3] && all[5 + k] == a;
    }
    assert all[0].ref != all[1].ref && all[1].ref != all[4].ref;
  }

  lemma {:induction false} FourMainsGood(m: seq<RefAction>, e: RefAction, f: seq<RefAction>)
    requires FourTied(m, e, f)
    ensures MainsGood(m)
  {
    FourApart(m, e, f);
    hide DistinctRefs;
    assert forall i :: 0 <= i < 4 ==> m[i] in m;
  }

  lemma {:induction false} ThirdRelates(m: seq<RefAction>, e: RefAction, d: RefAction, f: seq<RefAction>)
    requires FourTied(m, e, f) && NamesFourth(m, e, d) && d.action == Uninstall
    ensures RelatedGood(m, [[e], [], [d], f])
  {
    FourApart(m, e, f);
    assert m[2].ref != m[3].ref;
    hide DistinctRefs;
    assert m[0] in m && m[1] in m && m[2] in m && m[3] in m;
    assert e in [e] + f && forall a :: a in f ==> a in [e] + f;
  }

  lemma {:induction false} SecondRelates(m: seq<RefAction>, e: RefAction, d: RefAction, f: seq<RefAction>)
    requires FourTied(m, e, f) && NamesFourth(m, e, d) && d.action == Install
    ensures RelatedGood(m, [[e], [d], [], f])
  {
    FourApart(m, e, f);
    assert m[1].ref != m[3].ref;
    hide DistinctRefs;
    assert m[0] in m && m[1] in m && m[2] in m && m[3] in m;
    assert e in [e] + f && forall a :: a in f ==> a in [e] + f;
  }

  lemma {:induction false} FourSorted(m: seq<RefAction>, e: RefAction, f: seq<RefAction>)
    requires FourTied(m, e, f)
    ensures (var sorted := Sort([m[0], e, m[1], m[2]] + ([m[3]] + f));
             Precedes(sorted, m[3], m[1]) && Precedes(sorted, m[3], m[2]))
  {
    var left, right := [m[0], e, m[1], m[2]], [m[3]] + f;
    assert m[0] in m && m[1] in m && m[2] in m && m[3] in m && e in [e] + f;
    assert f[0] in [e] + f && f[1] in [e] + f && f[2] in [e] + f;
    assert right == [m[3], f[0], f[1], f[2]];
    FourInOrder(m[0], e, m[1], m[2]);
    FourInOrder(m[3], f[0], f[1], f[2]);
    Overtaking(left, right, 2);
    Overtaking(left, right, 3);
  }

  lemma {:induction false} RemovalOfThird(m: seq<RefAction>, e: RefAction, d: RefAction, f: seq<RefAction>)
    requires FourTied(m, e, f) && NamesFourth(m, e, d) && d.action == Uninstall
    ensures Assemble(m, [[e], [], [d], f], 4) == [m[0], e, m[1], m[2]] + [d] + ([m[3]] + f)
  {
    var related := [[e], [], [d], f];
    assert e in [e] + f && forall a :: a in f ==> a in [e] + f;
    assert [e][..1] == [e] && [d][..1] == [d] && f[..3] == f;
    AddRemovals([m[0]], [e], 1);
    assert Assemble(m, related, 0) == [] && [] + [m[0]] == [m[0]];
    assert Assemble(m, related, 1) == [m[0]] + [e] == [m[0], e];
    assert Assemble(m, related, 2) == [m[0], e] + [m[1]] == [m[0], e, m[1]];
    AddRemovals([m[0], e, m[1]] + [m[2]], [d], 1);
    assert Assemble(m, related, 3) == [m[0], e, m[1]] + [m[2]] + [d] == [m[0], e, m[1], m[2], d];
    AddRemovals([m[0], e, m[1], m[2], d] + [m[3]], f, 3);
  }

  /** What the third main action relates to is itself uninstalled by the fourth,
      which overtakes the third: a dependency of the first, held in front by the
      install, compares above it. */
  lemma {:induction false} TiedRemovalOvertakes(m: seq<RefAction>, e: RefAction, d: RefAction, f: seq<RefAction>)
    requires FourTied(m, e, f) && NamesFourth(m, e, d) && d.action == Uninstall
    ensures MainsGood(m) && RelatedGood(m, [[e], [], [d], f])
    ensures MixedTie(m, [[e], [], [d], f], 2, m[3])
    ensures Precedes(WithDependencies(m, [[e], [], [d], f]), m[3], m[2])
  {
    var related, left, right := [[e], [], [d], f], [m[0], e, m[1], m[2]], [m[3]] + f;
    FourMainsGood(m, e, f);
    ThirdRelates(m, e, d, f);
    RemovalOfThird(m, e, d, f);
    assert m[3] in right && m[3] in m && m[2] in m && m[1] in m;
    assert m[1] in left + [d] + right;
    KeepersAround(left, d, right, m[3]);
    CollectSkips(left + [d] + right, left, d, right);
    FourSorted(m, e, f);
  }

  lemma {:induction false} InstallOfSecond(m: seq<RefAction>, e: RefAction, d: RefAction, f: seq<RefAction>)
    requires FourTied(m, e, f) && NamesFourth(m, e, d) && d.action == Install
    ensures Assemble(m, [[e], [d], [], f], 4) == [m[0], e] + [d] + ([m[1], m[2]] + ([m[3]] + f))
  {
    var related := [[e], [d], [], f];
    assert e in [e] + f && forall a :: a in f ==> a in [e] + f;
    assert [e][..1] == [e] && f[..3] == f;
    AddRemovals([m[0]], [e], 1);
    assert Assemble(m, related, 0) == [] && [] + [m[0]] == [m[0]];
    assert Assemble(m, related, 1) == [m[0]] + [e] == [m[0], e];
    NotMentionedYet(m, e, d, f);
    assert AddRelated([m[0], e], [d], 0) == [m[0], e] && AddRelated([m[0], e], [d], 1) == [m[0], e] + [d];
    assert Assemble(m, related, 2) == [m[0], e] + [d] + [m[1]] == [m[0], e, d, m[1]];
    assert AddRelated([m[0], e, d, m[1]] + [m[2]], [], 0) == [m[0], e, d, m[1], m[2]];
    assert Assemble(m, related, 3) == [m[0], e, d, m[1], m[2]];
    AddRemovals([m[0], e, d, m[1], m[2]] + [m[3]], f, 3);
  }

  lemma {:induction false} NotMentionedYet(m: seq<RefAction>, e: RefAction, d: RefAction, f: seq<RefAction>)
    requires FourTied(m, e, f) && NamesFourth(m, e, d)
    ensures !MentionsRef([m[0], e], d.ref)
  {
    var all := [m[0], e, m[1], m[2]] + ([m[3]] + f);
    assert all[0].ref != all[4].ref && all[1].ref != all[4].ref;
  }

  /** What the second main action needs is uninstalled by the fourth, which
      overtakes it for the same reason: the second is performed without it. */
  lemma {:induction false} TiedUninstallGoesFirst(m: seq<RefAction>, e: RefAction, d: RefAction, f: seq<RefAction>,
                                                  inst: Installation)
    requires FourTied(m, e, f) && NamesFourth(m, e, d) && d.action == Install
    ensures MainsGood(m) && RelatedGood(m, [[e], [d], [], f])
    ensures (var w := WithDependencies(m, [[e], [d], [], f]);
             Precedes(w, m[3], m[1]) && d.ref !in Perform(Ahead(w, m[1]), inst))
  {
    var w, t, u := WithDependencies(m, [[e], [d], [], f]), [m[0], e], [m[1], m[2]] + ([m[3]] + f);
    FourMainsGood(m, e, f);
    SecondRelates(m, e, d, f);
    InstallOfSecond(m, e, d, f);
    assert t + u == [m[0], e, m[1], m[2]] + ([m[3]] + f);
    assert m[3] in u && m[3] in m;
    KeepersAround(t, d, u, m[3]);
    CollectSkips(t + [d] + u, t, d, u);
    FourSorted(m, e, f);
    SquashKeepsOnePerRef(t + [d] + u);
    GoneAhead(w, m[3], m[1], inst);
  }

  lemma {:induction false} GoneAhead(s: seq<RefAction>, x: RefAction, y: RefAction, m: Installation)
    requires DistinctRefs(s) && Precedes(s, x, y) && x.action == Uninstall
    ensures x.ref !in Perform(Ahead(s, y), m)
  {
    PrecedesOneWay(s, x, y);
    ThereAhead(s, x, y, m);
  }
}
