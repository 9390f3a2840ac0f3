// Adding dependency actions to a list, so that dependencies are in place
// before what needs them and outlast what is removed.

module Dependencies {
  import opened Actions
  import opened ActionSort
  import opened ActionFile
  import opened Squash

  /** What a dry-run flatpak transaction says it would do. */
  datatype Operation = Operation(action: ActionType, ref: Ref)

  /** An action flagged as a dependency of main, with its serial and source. */
  ghost predicate Inherits(a: RefAction, main: RefAction) {
    a.isDependency && a.serial == main.serial && a.source == main.source && a.ref != main.ref
  }

  /** related has, in order, one action for each operation on another ref than
      main's, these being the operations at the given places. */
  ghost predicate StandFor(related: seq<RefAction>, ops: seq<Operation>, main: RefAction, at: seq<nat>) {
    && |at| == |related|
    && (forall j, k :: 0 <= j < k < |at| ==> at[j] < at[k])
    && (forall k :: 0 <= k < |at| ==> at[k] < |ops|)
    && (forall k :: 0 <= k < |at| ==> related[k].action == ops[at[k]].action && related[k].ref == ops[at[k]].ref)
    && (forall i :: 0 <= i < |ops| ==> (ops[i].ref != main.ref <==> i in at))
  }

  /** Every operation on another ref becomes a new action that is flagged as a
      dependency and inherits the serial and the source. */
  method TransactionReady(main: RefAction, ops: seq<Operation>) returns (related: seq<RefAction>)
    ensures exists at :: StandFor(related, ops, main, at)
    ensures related == [] <==> forall i :: 0 <= i < |ops| ==> ops[i].ref == main.ref
    ensures forall a :: a in related ==> fresh(a) && Inherits(a, main)
  {
    related := [];
    ghost var at: seq<nat> := [];
    for i := 0 to |ops|
      invariant |at| == |related| && forall k :: 0 <= k < |at| ==> at[k] < i
      invariant forall j, k :: 0 <= j < k < |at| ==> at[j] < at[k]
      invariant forall k :: 0 <= k < |at| ==> related[k].action == ops[at[k]].action && related[k].ref == ops[at[k]].ref
      invariant forall j :: 0 <= j < i ==> (ops[j].ref != main.ref <==> j in at)
      invariant forall a :: a in related ==> fresh(a) && Inherits(a, main)
    {
      var op := ops[i];
      if op.ref == main.ref {
        continue;
      }
      var action := new RefAction(op.action, op.ref, main.source, main.serial, true);
      related, at := related + [action], at + [i];
    }
    assert StandFor(related, ops, main, at);
    assert related != [] ==> at[0] in at;
  }

  /** An update or uninstall of a ref that is not installed has no dependencies. */
  method FindRelated(main: RefAction, installed: Installation, ops: seq<Operation>) returns (related: seq<RefAction>)
    ensures main.action == Install || main.ref in installed ==> exists at :: StandFor(related, ops, main, at)
    ensures related == [] <==>
              || (main.action != Install && main.ref !in installed)
              || forall i :: 0 <= i < |ops| ==> ops[i].ref == main.ref
    ensures forall a :: a in related ==> fresh(a) && Inherits(a, main)
  {
    if main.action != Install && main.ref !in installed {
      return [];
    }
    related := TransactionReady(main, ops);
  }

  // -------------------------------------------------------------- assembly

  /** out with the first k of rel added; an install or update is left out when
      its ref is there already. */
  function AddRelated(out: seq<RefAction>, rel: seq<RefAction>, k: nat): seq<RefAction>
    requires k <= |rel|
  {
    if k == 0 then out
    else
      var earlier, a := AddRelated(out, rel, k - 1), rel[k - 1];
      if !Removes(a) && MentionsRef(earlier, a.ref) then earlier else earlier + [a]
  }

  /** The first n main actions, each with its related actions in front of it,
      or behind it when it uninstalls. */
  function Assemble(mains: seq<RefAction>, related: seq<seq<RefAction>>, n: nat): seq<RefAction>
    requires |related| == |mains| && n <= |mains|
  {
    if n == 0 then []
    else
      var earlier, main, rel := Assemble(mains, related, n - 1), mains[n - 1], related[n - 1];
      if Removes(main) then AddRelated(earlier + [main], rel, |rel|)
      else AddRelated(earlier, rel, |rel|) + [main]
  }

  function WithDependencies(mains: seq<RefAction>, related: seq<seq<RefAction>>): seq<RefAction>
    requires |related| == |mains|
  {
    Squashed(Assemble(mains, related, |mains|))
  }

  method AddDependencies(mains: seq<RefAction>, related: seq<seq<RefAction>>) returns (actions: seq<RefAction>)
    requires |related| == |mains|
    ensures actions == WithDependencies(mains, related)
  {
    var dependencyActions: seq<RefAction> := [];
    for i := 0 to |mains|
      invariant dependencyActions == Assemble(mains, related, i)
    {
      var main := mains[i];
      if main.action == Uninstall {
        dependencyActions := dependencyActions + [main];
      }
      ghost var start := dependencyActions;
      for j := 0 to |related[i]|
        invariant dependencyActions == AddRelated(start, related[i], j)
      {
        var rel := related[i][j];
        if (rel.action == Install || rel.action == Update) && MentionsRef(dependencyActions, rel.ref) {
          continue;
        }
        dependencyActions := dependencyActions + [rel];
      }
      if main.action == Install || main.action == Update {
        dependencyActions := dependencyActions + [main];
      }
    }
    actions := SquashActions(dependencyActions);
  }

  // ------------------------------------------------------------ hypotheses

  ghost predicate MainsGood(mains: seq<RefAction>) {
    && DistinctRefs(mains) && SerialsAscend(mains) && SpreadFits(mains)
    && forall i :: 0 <= i < |mains| ==> !mains[i].isDependency
  }

  ghost predicate DependsAsMain(rel: seq<RefAction>, main: RefAction) {
    forall a :: a in rel ==> a.isDependency && a.serial == main.serial && Removes(a) == Removes(main)
  }

  ghost predicate NoCommonObject(s: seq<RefAction>, t: seq<RefAction>) {
    forall a :: a in s ==> a !in t
  }

  /** Dependencies are of the kind of what needs them, name another ref, and are
      objects of their own. */
  ghost predicate RelatedGood(mains: seq<RefAction>, related: seq<seq<RefAction>>) {
    && |related| == |mains|
    && (forall i :: 0 <= i < |mains| ==> DependsAsMain(related[i], mains[i]))
    && (forall i :: 0 <= i < |mains| ==> !Mentions(related[i], mains[i].ref))
    && (forall i, j :: 0 <= i < |mains| && 0 <= j < |mains| && i != j ==> NoCommonObject(related[i], related[j]))
  }

  /** a is main action i or one of its dependencies. */
  ghost predicate StemsFrom(mains: seq<RefAction>, related: seq<seq<RefAction>>, i: nat, a: RefAction)
    requires |related| == |mains|
  {
    i < |mains| && (a == mains[i] || a in related[i])
  }

  // -------------------------------------------------------- what is in it

  lemma {:induction false} AddRelatedParts(out: seq<RefAction>, rel: seq<RefAction>, k: nat)
    returns (added: seq<RefAction>)
    requires k <= |rel|
    ensures AddRelated(out, rel, k) == out + added
    ensures forall a :: a in added ==> a in rel
    ensures forall i :: 0 <= i < k && Removes(rel[i]) ==> rel[i] in added
    ensures forall i :: 0 <= i < k ==> Mentions(out + added, rel[i].ref)
  {
    if k == 0 {
      added := [];
    } else {
      var earlier := AddRelatedParts(out, rel, k - 1);
      var a := rel[k - 1];
      added := if Removes(a) || !MentionsRef(out + earlier, a.ref) then earlier + [a] else earlier;
      ConcatAssociates(out, earlier, [a]);
      forall i | 0 <= i < k ensures Mentions(out + added, rel[i].ref) {
        StillMentioned(out + earlier, a, out + added, rel[i].ref);
      }
      forall i | 0 <= i < k && Removes(rel[i]) ensures rel[i] in added {
        assert i == k - 1 || rel[i] in earlier;
      }
    }
  }

  lemma {:induction false} StillMentioned(s: seq<RefAction>, a: RefAction, t: seq<RefAction>, r: Ref)
    requires t == s + [a] || (t == s && MentionsRef(s, a.ref))
    requires Mentions(s, r) || r == a.ref
    ensures Mentions(t, r)
  {
    if t == s + [a] && r == a.ref {
      assert a in t;
    } else if r == a.ref {
      var i :| 0 <= i < |s| && s[i].ref == a.ref;
      assert s[i] in t;
    } else {
      var b :| b in s && b.ref == r;
      assert b in t;
    }
  }

  lemma {:induction false} AssembleStep(mains: seq<RefAction>, related: seq<seq<RefAction>>, i: nat)
    returns (added: seq<RefAction>)
    requires |related| == |mains| && i < |mains|
    ensures Assemble(mains, related, i + 1)
         == if Removes(mains[i]) then Assemble(mains, related, i) + [mains[i]] + added
            else Assemble(mains, related, i) + added + [mains[i]]
    ensures forall a :: a in added ==> a in related[i]
    ensures forall a :: a in related[i] && Removes(a) ==> a in added
    ensures forall a :: a in related[i] ==> Mentions(Assemble(mains, related, i + 1), a.ref)
    ensures !Removes(mains[i]) ==> forall a :: a in related[i] ==> Mentions(Assemble(mains, related, i) + added, a.ref)
  {
    var earlier := Assemble(mains, related, i);
    var start := if Removes(mains[i]) then earlier + [mains[i]] else earlier;
    added := AddRelatedParts(start, related[i], |related[i]|);
    forall a | a in related[i]
      ensures Mentions(start + added, a.ref)
    {
      var k :| 0 <= k < |related[i]| && related[i][k] == a;
    }
    forall a | a in related[i]
      ensures Mentions(Assemble(mains, related, i + 1), a.ref)
    {
      var b :| b in start + added && b.ref == a.ref;
      assert b in Assemble(mains, related, i + 1);
    }
  }

  ghost predicate StemsBetween(mains: seq<RefAction>, related: seq<seq<RefAction>>, i: nat, n: nat, a: RefAction)
    requires |related| == |mains|
  {
    exists j :: i <= j < n && StemsFrom(mains, related, j, a)
  }

  lemma {:induction false} AssembleTail(mains: seq<RefAction>, related: seq<seq<RefAction>>, i: nat, n: nat)
    returns (tail: seq<RefAction>)
    requires |related| == |mains| && i <= n <= |mains|
    ensures Assemble(mains, related, n) == Assemble(mains, related, i) + tail
    ensures forall a :: a in tail ==> StemsBetween(mains, related, i, n, a)
  {
    if i == n {
      tail := [];
    } else {
      var earlier := AssembleTail(mains, related, i, n - 1);
      var last := LastBlock(mains, related, n - 1);
      tail := earlier + last;
      forall a | a in tail ensures StemsBetween(mains, related, i, n, a) {
        if a in last {
          assert StemsFrom(mains, related, n - 1, a);
        } else {
          assert a in earlier && StemsBetween(mains, related, i, n - 1, a);
        }
      }
    }
  }

  lemma {:induction false} LastBlock(mains: seq<RefAction>, related: seq<seq<RefAction>>, i: nat)
    returns (block: seq<RefAction>)
    requires |related| == |mains| && i < |mains|
    ensures Assemble(mains, related, i + 1) == Assemble(mains, related, i) + block
    ensures forall a :: a in block ==> StemsFrom(mains, related, i, a)
    ensures mains[i] in block
  {
    var added := AssembleStep(mains, related, i);
    block := if Removes(mains[i]) then [mains[i]] + added else added + [mains[i]];
  }

  lemma {:induction false} AssembledStems(mains: seq<RefAction>, related: seq<seq<RefAction>>, n: nat, a: RefAction)
    requires |related| == |mains| && n <= |mains| && a in Assemble(mains, related, n)
    ensures StemsBetween(mains, related, 0, n, a)
  {
    var tail := AssembleTail(mains, related, 0, n);
    assert Assemble(mains, related, 0) + tail == tail;
  }

  // ------------------------------------------------- order through the squash

  lemma {:induction false} CollectPrefix(s: seq<RefAction>, t: seq<RefAction>, u: seq<RefAction>)
    returns (v: seq<RefAction>)
    ensures Collect(s, t + u) == Collect(s, t) + v
  {
    if u == [] {
      v := [];
      assert t + u == t;
    } else {
      v := CollectPrefix(s, t, u[..|u|-1]);
      assert (t + u)[..|t + u|-1] == t + u[..|u|-1];
      if Collect(s, t + u) != Collect(s, t + u[..|u|-1]) {
        v := v + [u[|u|-1]];
      }
    }
  }

  /** Where a keeper is among what the squash collects: behind the keepers of
      what stands in front of it. */
  lemma {:induction false} CollectedBehind(s: seq<RefAction>, before: seq<RefAction>, y: RefAction,
                                           after: seq<RefAction>, x: RefAction) returns (p: nat)
    requires s == before + [y] + after && y !in before && x in before
    requires Keeper(s, y.ref) == Keep(y) && Keeper(s, x.ref) == Keep(x)
    ensures p < |Collect(s, s)| && Collect(s, s)[p] == y && x in Collect(s, s)[..p]
    ensures forall a :: a in Collect(s, s)[..p] ==> a in before
  {
    var front := Collect(s, before);
    CollectDistinct(s, before);
    CollectComplete(s, before, x);
    NotYetCollected(s, before, y);
    assert (before + [y])[..|before|] == before;
    assert Collect(s, before + [y]) == front + [y];
    var rest := CollectPrefix(s, before + [y], after);
    p := |front|;
    assert Collect(s, s) == front + [y] + rest;
    assert Collect(s, s)[..p] == front;
  }

  /** Of two keepers, the one in front stays in front when nothing in front of
      the other compares above it. */
  lemma {:induction false} SquashKeepsAhead(s: seq<RefAction>, before: seq<RefAction>, y: RefAction,
                                            after: seq<RefAction>, x: RefAction)
    requires s == before + [y] + after && y !in before && x in before
    requires Keeper(s, y.ref) == Keep(y) && Keeper(s, x.ref) == Keep(x)
    requires forall a :: a in before ==> Compare(a, y) <= 0
    ensures Precedes(Squashed(s), x, y)
  {
    var p := CollectedBehind(s, before, y, after, x);
    SortNeverOvertakes(Collect(s, s), p, x);
  }

  lemma {:induction false} SerialsFollowMains(mains: seq<RefAction>, related: seq<seq<RefAction>>, n: nat,
                                              a: RefAction, i: nat, y: RefAction)
    requires MainsGood(mains) && RelatedGood(mains, related) && n <= i + 1 <= |mains|
    requires StemsBetween(mains, related, 0, n, a) && y.serial == mains[i].serial
    requires y.isDependency == Removes(y)
    ensures Compare(a, y) <= 0
  {
    var j :| 0 <= j < n && StemsFrom(mains, related, j, a);
    assert a.serial == mains[j].serial;
    assert j < i ==> mains[j].serial <= mains[i].serial;
    assert mains[i] in mains && mains[j] in mains;
    assert mains[i].serial as int - mains[j].serial as int <= MAX_INT32;
  }
}
