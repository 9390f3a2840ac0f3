// Squashing a list of actions to one action per ref.

module Squash {
  import opened Actions
  import opened ActionSort

  /** The action that stands for r after a list: the last install or
      uninstall of r, or the last update when there is neither. */
  datatype Kept = Nothing | Keep(action: RefAction)

  predicate Decides(kept: Kept) {
    kept.Keep? && kept.action.action != Update
  }

  predicate Replaces(a: RefAction, kept: Kept) {
    a.action == Install || a.action == Uninstall || kept.Nothing? || kept.action.action == Update
  }

  function Keeper(s: seq<RefAction>, r: Ref): (k: Kept)
    ensures k.Keep? ==> k.action in s && k.action.ref == r
  {
    if s == [] then Nothing
    else
      var earlier, a := Keeper(s[..|s|-1], r), s[|s|-1];
      if a.ref == r && Replaces(a, earlier) then Keep(a) else earlier
  }

  /** What the second pass over s has collected after the entries of t, a
      prefix of s: each kept action, at the first place it occurs. */
  function Collect(s: seq<RefAction>, t: seq<RefAction>): seq<RefAction> {
    if t == [] then []
    else
      var out, a := Collect(s, t[..|t|-1]), t[|t|-1];
      if Keeper(s, a.ref) == Keep(a) && !MentionsRef(out, a.ref) then out + [a] else out
  }

  predicate MentionsRef(s: seq<RefAction>, r: Ref) {
    exists i :: 0 <= i < |s| && s[i].ref == r
  }

  function Squashed(s: seq<RefAction>): seq<RefAction> {
    Sort(Collect(s, s))
  }

  method SquashActions(actions: seq<RefAction>) returns (squashed: seq<RefAction>)
    ensures squashed == Squashed(actions)
  {
    var table: map<Ref, RefAction> := map[];
    for i := 0 to |actions|
      invariant forall r :: Keeper(actions[..i], r) == if r in table then Keep(table[r]) else Nothing
    {
      var a := actions[i];
      assert actions[..i + 1][..i] == actions[..i];
      if a.action == Install || a.action == Uninstall || a.ref !in table || table[a.ref].action == Update {
        table := table[a.ref := a];
      }
    }
    assert actions[..|actions|] == actions;

    squashed := [];
    for i := 0 to |actions|
      invariant squashed == Collect(actions, actions[..i])
    {
      var a := actions[i];
      assert actions[..i + 1][..i] == actions[..i];
      if a.ref in table && table[a.ref] == a && !MentionsRef(squashed, a.ref) {
        squashed := squashed + [a];
      }
    }
    squashed := Sort(squashed);
  }

  // ---------------------------------------------------- one action per ref

  lemma {:induction false} KeeperExists(s: seq<RefAction>, r: Ref)
    ensures Keeper(s, r).Keep? <==> Mentions(s, r)
  {
    if s != [] {
      var u := s[..|s|-1];
      KeeperExists(u, r);
      assert s == u + [s[|s|-1]];
      assert s[|s|-1] in s;
      if Mentions(s, r) && s[|s|-1].ref != r {
        var a :| a in s && a.ref == r;
        assert a in u;
      }
      if Mentions(u, r) {
        var a :| a in u && a.ref == r;
        assert a in s;
      }
    }
  }

  lemma {:induction false} CollectDistinct(s: seq<RefAction>, t: seq<RefAction>)
    ensures DistinctRefs(Collect(s, t))
    ensures forall a :: a in Collect(s, t) ==> a in t && Keeper(s, a.ref) == Keep(a)
  {
    if t != [] {
      CollectDistinct(s, t[..|t|-1]);
    }
  }

  lemma {:induction false} CollectComplete(s: seq<RefAction>, t: seq<RefAction>, a: RefAction)
    requires a in t && Keeper(s, a.ref) == Keep(a)
    ensures a in Collect(s, t)
  {
    var u, b := t[..|t|-1], t[|t|-1];
    assert t == u + [b];
    if a in u {
      CollectComplete(s, u, a);
    } else {
      NotYetCollected(s, u, a);
    }
  }

  lemma {:induction false} NotYetCollected(s: seq<RefAction>, u: seq<RefAction>, a: RefAction)
    requires a !in u && Keeper(s, a.ref) == Keep(a)
    ensures !MentionsRef(Collect(s, u), a.ref)
  {
    CollectDistinct(s, u);
    forall c: RefAction | c in Collect(s, u) ensures c.ref != a.ref {
      assert Keeper(s, c.ref) == Keep(c);
    }
  }

  lemma {:induction false} DistinctUnderPermutation(s: seq<RefAction>, t: seq<RefAction>)
    requires DistinctRefs(s) && multiset(s) == multiset(t)
    ensures DistinctRefs(t)
  {
    forall i, j | 0 <= i < j < |t| ensures t[i].ref != t[j].ref {
      assert t[i] in multiset(s) && t[j] in multiset(s);
      if t[i] == t[j] {
        CountedTwice(t, i, j);
        OnceWhenDistinct(s, t[i]);
      }
    }
  }

  lemma {:induction false} CountedTwice(t: seq<RefAction>, i: nat, j: nat)
    requires i < j < |t| && t[i] == t[j]
    ensures multiset(t)[t[i]] >= 2
  {
    SplitAt(t, j);
    assert t[i] in t[..j] && t[j] in t[j..];
  }

  lemma {:induction false} OnceWhenDistinct(s: seq<RefAction>, a: RefAction)
    requires DistinctRefs(s)
    ensures multiset(s)[a] <= 1
  {
    if s != [] {
      assert s == [s[0]] + s[1..];
      OnceWhenDistinct(s[1..], a);
    }
  }

  lemma {:induction false} SquashMember(s: seq<RefAction>, a: RefAction)
    ensures a in Squashed(s) <==> a in s && Keeper(s, a.ref) == Keep(a)
  {
    CollectDistinct(s, s);
    SortKeepsMember(Collect(s, s), a);
    if a in s && Keeper(s, a.ref) == Keep(a) {
      CollectComplete(s, s, a);
    }
  }

  lemma {:induction false} SquashMentions(s: seq<RefAction>, r: Ref)
    ensures Mentions(Squashed(s), r) <==> Mentions(s, r)
  {
    KeeperExists(s, r);
    if Mentions(s, r) {
      var a := Keeper(s, r).action;
      SquashMember(s, a);
      assert a in Squashed(s);
    } else if Mentions(Squashed(s), r) {
      var a :| a in Squashed(s) && a.ref == r;
      SquashMember(s, a);
    }
  }

  /** Exactly one action per ref mentioned survives, and it is the keeper. */
  lemma {:induction false} SquashKeepsOnePerRef(s: seq<RefAction>)
    ensures DistinctRefs(Squashed(s))
    ensures forall a :: a in Squashed(s) <==> a in s && Keeper(s, a.ref) == Keep(a)
    ensures forall r :: Mentions(Squashed(s), r) <==> Mentions(s, r)
  {
    CollectDistinct(s, s);
    SortIsPermutation(Collect(s, s));
    DistinctUnderPermutation(Collect(s, s), Squashed(s));
    forall a ensures a in Squashed(s) <==> a in s && Keeper(s, a.ref) == Keep(a) {
      SquashMember(s, a);
    }
    forall r ensures Mentions(Squashed(s), r) <==> Mentions(s, r) {
      SquashMentions(s, r);
    }
  }

  // ------------------------------------------------------ meaning preserved

  /** The keeper alone decides what a list does to its ref. */
  lemma {:induction false} KeeperVerdict(s: seq<RefAction>, r: Ref)
    ensures VerdictOf(s, r) == match Keeper(s, r)
                               case Nothing => Untouched
                               case Keep(a) => ActionVerdict(a, r)
  {
    if s != [] {
      KeeperVerdict(s[..|s|-1], r);
    }
  }

  lemma {:induction false} SquashKeepsVerdict(s: seq<RefAction>, r: Ref)
    ensures VerdictOf(Squashed(s), r) == VerdictOf(s, r)
  {
    SquashKeepsOnePerRef(s);
    KeeperVerdict(s, r);
    KeeperExists(s, r);
    if Mentions(s, r) {
      VerdictOfDistinct(Squashed(s), Keeper(s, r).action);
    } else {
      UnmentionedUntouched(Squashed(s), r);
    }
  }

  /** Squashing and re-sorting never changes what a list does, whatever it is
      performed on and however the sort came out. */
  lemma {:induction false} SquashPreservesMeaning(s: seq<RefAction>, m: Installation)
    ensures Perform(Squashed(s), m) == Perform(s, m)
  {
    forall r ensures VerdictOf(Squashed(s), r) == VerdictOf(s, r) {
      SquashKeepsVerdict(s, r);
    }
    SameVerdictsSameEffect(Squashed(s), s, m);
  }

  /** No shorter list will do: a list with the same effect touches every ref
      that s mentions. */
  lemma {:induction false} SquashIsMinimal(s: seq<RefAction>, t: seq<RefAction>)
    requires SameEffect(s, t)
    ensures |Squashed(s)| <= |t|
  {
    SameEffectIffSameVerdicts(s, t);
    SquashKeepsOnePerRef(s);
    forall i | 0 <= i < |Squashed(s)| ensures Mentions(t, Squashed(s)[i].ref) {
      var a := Squashed(s)[i];
      assert a in Squashed(s);
      VerdictOfDistinct(Squashed(s), a);
      SquashKeepsVerdict(s, a.ref);
      if !Mentions(t, a.ref) {
        UnmentionedUntouched(t, a.ref);
      }
    }
    AtLeastAsLong(Squashed(s), t);
  }

  lemma {:induction false} AtLeastAsLong(s: seq<RefAction>, t: seq<RefAction>)
    requires DistinctRefs(s)
    requires forall i :: 0 <= i < |s| ==> Mentions(t, s[i].ref)
    ensures |s| <= |t|
  {
    if s != [] {
      var r := s[0].ref;
      var a :| a in t && a.ref == r;
      var k :| 0 <= k < |t| && t[k] == a;
      var t' := t[..k] + t[k + 1..];
      forall i | 0 <= i < |s[1..]| ensures Mentions(t', s[1..][i].ref) {
        assert Mentions(t, s[i + 1].ref);
        var b :| b in t && b.ref == s[i + 1].ref;
        var l :| 0 <= l < |t| && t[l] == b;
        assert l < k ==> t'[l] == b;
        assert l > k ==> t'[l - 1] == b;
      }
      AtLeastAsLong(s[1..], t');
    }
  }
}
