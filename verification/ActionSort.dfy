// The comparator on actions and the stable merge sort that GLib runs with it.

module ActionSort {
  import opened Actions

  // ------------------------------------------------------------ comparator

  /** A difference of two serials stored back into 32 bits. */
  function Wrap32(d: int): int
    requires MIN_INT32 - MAX_INT32 <= d <= MAX_INT32 - MIN_INT32
  {
    if d > MAX_INT32 then d - 0x1_0000_0000
    else if d < MIN_INT32 then d + 0x1_0000_0000
    else d
  }

  predicate Removes(a: RefAction) {
    a.action == Uninstall
  }

  /** By serial; on a tie, a dependency goes before what is installed or
      updated and after what is uninstalled. */
  function Compare(a: RefAction, b: RefAction): int {
    var position := Wrap32(a.serial as int - b.serial as int);
    if position != 0 || Removes(a) != Removes(b) || a.isDependency == b.isDependency then
      position
    else if a.isDependency == Removes(a) then
      1
    else
      -1
  }

  ghost predicate SpreadFits(s: seq<RefAction>) {
    forall a, b :: a in s && b in s ==> a.serial as int - b.serial as int <= MAX_INT32
  }

  /** Compare orders the actions of s up to ties. */
  ghost predicate IsWeakOrder(s: seq<RefAction>) {
    && (forall x, y :: x in s && y in s ==> (Compare(x, y) > 0 <==> Compare(y, x) < 0))
    && (forall x, y, z :: x in s && y in s && z in s && Compare(x, y) <= 0 && Compare(y, z) <= 0
                          ==> Compare(x, z) <= 0)
  }

  /** A dependency and a non-dependency of one kind tied with an action of the
      other kind. */
  ghost predicate TiesClash(s: seq<RefAction>) {
    exists x, y, z ::
      && x in s && y in s && z in s
      && x.serial == y.serial == z.serial
      && Removes(x) == Removes(y) && Removes(x) != Removes(z)
      && x.isDependency && !y.isDependency
  }

  lemma {:induction false} WeakOrderIffNoTiesClash(s: seq<RefAction>)
    requires SpreadFits(s)
    ensures IsWeakOrder(s) <==> !TiesClash(s)
  {
    if TiesClash(s) {
      var x, y, z :|
        && x in s && y in s && z in s
        && x.serial == y.serial == z.serial
        && Removes(x) == Removes(y) && Removes(x) != Removes(z)
        && x.isDependency && !y.isDependency;
      assert Compare(x, z) == Compare(z, x) == Compare(y, z) == Compare(z, y) == 0;
      assert Compare(x, y) > 0 || Compare(y, x) > 0;
    } else {
      forall x, y | x in s && y in s
        ensures Compare(x, y) > 0 <==> Compare(y, x) < 0
      {
        FitsSymmetric(s, x, y);
      }
      forall x, y, z | x in s && y in s && z in s && Compare(x, y) <= 0 && Compare(y, z) <= 0
        ensures Compare(x, z) <= 0
      {
        NoClashTransitive(s, x, y, z);
      }
    }
  }

  lemma {:induction false} FitsSymmetric(s: seq<RefAction>, x: RefAction, y: RefAction)
    requires SpreadFits(s) && x in s && y in s
    ensures Compare(x, y) > 0 <==> Compare(y, x) < 0
    ensures Compare(x, y) < 0 ==> x.serial <= y.serial
    ensures Compare(x, y) > 0 ==> x.serial >= y.serial
    ensures Compare(x, y) == 0 ==> x.serial == y.serial
  {
    assert x.serial as int - y.serial as int <= MAX_INT32;
    assert y.serial as int - x.serial as int <= MAX_INT32;
  }

  lemma {:induction false} NoClashTransitive(s: seq<RefAction>, x: RefAction, y: RefAction, z: RefAction)
    requires SpreadFits(s) && !TiesClash(s)
    requires x in s && y in s && z in s && Compare(x, y) <= 0 && Compare(y, z) <= 0
    ensures Compare(x, z) <= 0
  {
    FitsSymmetric(s, x, y);
    FitsSymmetric(s, y, z);
    FitsSymmetric(s, x, z);
  }

  /** Actions read from one file are never dependencies, so there the
      comparator orders by serial alone. */
  lemma {:induction false} ParsedActionsOrdered(s: seq<RefAction>)
    requires SpreadFits(s)
    requires forall a :: a in s ==> !a.isDependency
    ensures IsWeakOrder(s)
    ensures forall a, b :: a in s && b in s ==> (Compare(a, b) < 0 <==> a.serial < b.serial)
  {
    WeakOrderIffNoTiesClash(s);
  }

  // ------------------------------------------------------------------ sort

  function Merge(left: seq<RefAction>, right: seq<RefAction>): seq<RefAction> {
    if left == [] then right
    else if right == [] then left
    else if Compare(left[0], right[0]) <= 0 then [left[0]] + Merge(left[1..], right)
    else [right[0]] + Merge(left, right[1..])
  }

  function Sort(s: seq<RefAction>): seq<RefAction> {
    if |s| <= 1 then s else Merge(Sort(s[..|s|/2]), Sort(s[|s|/2..]))
  }

  lemma {:induction false} CountHead(s: seq<RefAction>)
    requires s != []
    ensures multiset(s) == multiset{s[0]} + multiset(s[1..])
  {
    assert s == [s[0]] + s[1..];
  }

  lemma {:induction false} CountCons(head: RefAction, rest: seq<RefAction>)
    ensures multiset([head] + rest) == multiset{head} + multiset(rest)
  {
  }

  lemma {:induction false} HeadOfUnion(m: multiset<RefAction>, head: RefAction, l: multiset<RefAction>,
                                       r: multiset<RefAction>, all: multiset<RefAction>)
    requires m == multiset{head} + (l + r)
    requires all == (multiset{head} + l) + r || all == l + (multiset{head} + r)
    ensures m == all
  {
  }

  lemma {:induction false} MergeIsUnion(left: seq<RefAction>, right: seq<RefAction>)
    ensures multiset(Merge(left, right)) == multiset(left) + multiset(right)
  {
    hide Compare;
    if left != [] && right != [] {
      var all := multiset(left) + multiset(right);
      CountHead(left);
      CountHead(right);
      if Compare(left[0], right[0]) <= 0 {
        MergeIsUnion(left[1..], right);
        CountCons(left[0], Merge(left[1..], right));
        HeadOfUnion(multiset(Merge(left, right)), left[0], multiset(left[1..]), multiset(right), all);
      } else {
        MergeIsUnion(left, right[1..]);
        CountCons(right[0], Merge(left, right[1..]));
        HeadOfUnion(multiset(Merge(left, right)), right[0], multiset(left), multiset(right[1..]), all);
      }
    }
  }

  lemma {:induction false} SortIsPermutation(s: seq<RefAction>)
    ensures multiset(Sort(s)) == multiset(s)
  {
    if |s| > 1 {
      var left, right := s[..|s|/2], s[|s|/2..];
      SortIsPermutation(left);
      SortIsPermutation(right);
      MergeIsUnion(Sort(left), Sort(right));
      SplitAt(s, |s|/2);
    }
  }

  lemma {:induction false} MergeMember(left: seq<RefAction>, right: seq<RefAction>, a: RefAction)
    ensures a in Merge(left, right) <==> a in left || a in right
  {
    MergeIsUnion(left, right);
    assert a in Merge(left, right) <==> a in multiset(Merge(left, right));
    assert a in multiset(left) + multiset(right) <==> a in left || a in right;
  }

  lemma {:induction false} SortKeepsMember(s: seq<RefAction>, a: RefAction)
    ensures a in Sort(s) <==> a in s
  {
    SortIsPermutation(s);
    assert a in Sort(s) <==> a in multiset(Sort(s));
    assert a in s <==> a in multiset(s);
  }

  // ------------------------------------------------------- order by serial

  ghost predicate SerialsAscend(s: seq<RefAction>) {
    forall i, j :: 0 <= i < j < |s| ==> s[i].serial <= s[j].serial
  }

  lemma {:induction false} MergeAscends(left: seq<RefAction>, right: seq<RefAction>)
    requires SerialsAscend(left) && SerialsAscend(right)
    requires forall l, r :: l in left && r in right ==>
               (Compare(l, r) <= 0 ==> l.serial <= r.serial) && (Compare(l, r) > 0 ==> r.serial <= l.serial)
    ensures SerialsAscend(Merge(left, right))
  {
    if left != [] && right != [] {
      var l, r := left[0], right[0];
      if Compare(l, r) <= 0 {
        MergeAscends(left[1..], right);
        HeadLeast(l, left[1..], right);
        HeadFirst(l, Merge(left[1..], right));
      } else {
        MergeAscends(left, right[1..]);
        HeadLeast(r, left, right[1..]);
        HeadFirst(r, Merge(left, right[1..]));
      }
    }
  }

  lemma {:induction false} HeadFirst(least: RefAction, rest: seq<RefAction>)
    requires SerialsAscend(rest) && forall a :: a in rest ==> least.serial <= a.serial
    ensures SerialsAscend([least] + rest)
  {
  }

  lemma {:induction false} HeadLeast(least: RefAction, left: seq<RefAction>, right: seq<RefAction>)
    requires forall a :: a in left || a in right ==> least.serial <= a.serial
    ensures forall a :: a in Merge(left, right) ==> least.serial <= a.serial
  {
    forall a | a in Merge(left, right) ensures least.serial <= a.serial {
      MergeMember(left, right, a);
    }
  }

  lemma {:induction false} SortAscends(s: seq<RefAction>)
    requires SpreadFits(s)
    ensures SerialsAscend(Sort(s))
  {
    if |s| > 1 {
      var left, right := s[..|s|/2], s[|s|/2..];
      SortAscends(left);
      SortAscends(right);
      forall l, r | l in Sort(left) && r in Sort(right)
        ensures Compare(l, r) <= 0 ==> l.serial <= r.serial
        ensures Compare(l, r) > 0 ==> r.serial <= l.serial
      {
        SortKeepsMember(left, l);
        SortKeepsMember(right, r);
        FitsSymmetric(s, l, r);
      }
      MergeAscends(Sort(left), Sort(right));
    }
  }

  /** x stands somewhere in front of y. */
  ghost predicate Precedes(s: seq<RefAction>, x: RefAction, y: RefAction) {
    s != [] && ((x == s[0] && y in s[1..]) || Precedes(s[1..], x, y))
  }

  lemma {:induction false} PrecedesAt(s: seq<RefAction>, i: nat, j: nat)
    requires i < j < |s|
    ensures Precedes(s, s[i], s[j])
  {
    if i == 0 {
      assert s[j] == s[1..][j - 1];
    } else {
      PrecedesAt(s[1..], i - 1, j - 1);
    }
  }

  lemma {:induction false} PrecedesIndices(s: seq<RefAction>, x: RefAction, y: RefAction) returns (i: nat, j: nat)
    requires Precedes(s, x, y)
    ensures i < j < |s| && s[i] == x && s[j] == y
  {
    if x == s[0] && y in s[1..] {
      var k :| 0 <= k < |s[1..]| && s[1..][k] == y;
      i, j := 0, k + 1;
    } else {
      i, j := PrecedesIndices(s[1..], x, y);
      i, j := i + 1, j + 1;
    }
  }

  lemma {:induction false} MergeKeepsOrder(left: seq<RefAction>, right: seq<RefAction>, x: RefAction, y: RefAction)
    requires Precedes(left, x, y) || Precedes(right, x, y)
    ensures Precedes(Merge(left, right), x, y)
  {
    if left != [] && right != [] {
      var fromLeft := Compare(left[0], right[0]) <= 0;
      var left' := if fromLeft then left[1..] else left;
      var right' := if fromLeft then right else right[1..];
      var rest := Merge(left', right');
      assert Merge(left, right)[1..] == rest;
      if Precedes(left', x, y) || Precedes(right', x, y) {
        MergeKeepsOrder(left', right', x, y);
      } else {
        MergeMember(left', right', y);
      }
    }
  }

  /** Where the sort first compares two neighbours of an n-element list. */
  function LeafPair(n: nat): (i: nat)
    requires n >= 2
    ensures i + 2 <= n
  {
    if n == 2 then 0 else if n == 3 then 1 else LeafPair(n / 2)
  }

  lemma {:induction false} SortKeepsLeafPair(s: seq<RefAction>)
    requires |s| >= 2
    requires Compare(s[LeafPair(|s|)], s[LeafPair(|s|) + 1]) <= 0
    ensures Precedes(Sort(s), s[LeafPair(|s|)], s[LeafPair(|s|) + 1])
  {
    var i := LeafPair(|s|);
    var left, right := s[..|s|/2], s[|s|/2..];
    if |s| == 2 {
      PairSorted(s);
    } else if |s| == 3 {
      assert right == [s[1], s[2]];
      PairSorted(right);
      MergeKeepsOrder(Sort(left), Sort(right), s[i], s[i + 1]);
    } else {
      SortKeepsLeafPair(left);
      MergeKeepsOrder(Sort(left), Sort(right), s[i], s[i + 1]);
    }
  }

  lemma {:induction false} PairSorted(s: seq<RefAction>)
    requires |s| == 2 && Compare(s[0], s[1]) <= 0
    ensures Precedes(Sort(s), s[0], s[1])
  {
    assert s[..1] == [s[0]] && s[1..] == [s[1]];
    assert Merge([s[0]], [s[1]]) == [s[0]] + Merge([], [s[1]]);
    assert Sort(s) == [s[0], s[1]];
    PrecedesAt(Sort(s), 0, 1);
  }

  /** The sort yields ascending serials from every arrangement of the actions
      exactly when no two serials are more than MAX_INT32 apart. */
  lemma {:induction false} SortAscendsIffSpreadFits(s: seq<RefAction>)
    ensures (forall t :: multiset(t) == multiset(s) ==> SerialsAscend(Sort(t))) <==> SpreadFits(s)
  {
    if SpreadFits(s) {
      forall t | multiset(t) == multiset(s) ensures SerialsAscend(Sort(t)) {
        forall a | a in t ensures a in s {
          assert a in multiset(t);
        }
        SortAscends(t);
      }
    } else {
      var high, low :| high in s && low in s && high.serial as int - low.serial as int > MAX_INT32;
      var t := Arrange(s, high, low);
      SortKeepsLeafPair(t);
      var i, j := PrecedesIndices(Sort(t), high, low);
      assert !SerialsAscend(Sort(t));
    }
  }

  lemma {:induction false} Arrange(s: seq<RefAction>, x: RefAction, y: RefAction) returns (t: seq<RefAction>)
    requires x in s && y in s && x != y
    ensures multiset(t) == multiset(s) && |t| >= 2
    ensures t[LeafPair(|t|)] == x && t[LeafPair(|t|) + 1] == y
  {
    var rest := Without(Without(s, x), y);
    t := Insert(rest, LeafPair(|rest| + 2), x, y);
  }

  lemma {:induction false} Insert(s: seq<RefAction>, i: nat, x: RefAction, y: RefAction) returns (t: seq<RefAction>)
    requires i <= |s|
    ensures multiset(t) == multiset(s) + multiset{x} + multiset{y}
    ensures |t| == |s| + 2 && t[i] == x && t[i + 1] == y
  {
    t := s[..i] + ([x, y] + s[i..]);
    SplitAt(s, i);
  }

  function Without(s: seq<RefAction>, x: RefAction): (t: seq<RefAction>)
    requires x in s
    ensures multiset(t) + multiset{x} == multiset(s)
    ensures |t| + 1 == |s|
    ensures forall y :: y in s && y != x ==> y in t
  {
    assert s == [s[0]] + s[1..];
    if s[0] == x then s[1..] else [s[0]] + Without(s[1..], x)
  }

  // ------------------------------------------------------ never overtaking

  lemma {:induction false} MergeLeftFirst(left: seq<RefAction>, right: seq<RefAction>, x: RefAction, y: RefAction)
    requires x in left && y in right
    requires forall a :: a in left ==> Compare(a, y) <= 0
    ensures Precedes(Merge(left, right), x, y)
  {
    var m := Merge(left, right);
    if Compare(left[0], right[0]) <= 0 {
      assert m[1..] == Merge(left[1..], right);
      if x in left[1..] {
        MergeLeftFirst(left[1..], right, x, y);
      } else {
        MergeMember(left[1..], right, y);
      }
    } else {
      assert m[1..] == Merge(left, right[1..]);
      MergeLeftFirst(left, right[1..], x, y);
    }
  }

  /** An action that compares below none of those in front of it still has all
      of them in front of it after sorting, whether or not the comparator is a
      weak order on the rest. */
  lemma {:induction false} SortNeverOvertakes(s: seq<RefAction>, p: nat, x: RefAction)
    requires p < |s| && x in s[..p]
    requires forall a :: a in s[..p] ==> Compare(a, s[p]) <= 0
    ensures Precedes(Sort(s), x, s[p])
  {
    var h := |s| / 2;
    var left, right := s[..h], s[h..];
    if p < h {
      assert left[..p] == s[..p];
      SortNeverOvertakes(left, p, x);
      MergeKeepsOrder(Sort(left), Sort(right), x, s[p]);
    } else {
      assert s[..p] == left + right[..p - h];
      if x in right[..p - h] {
        SortNeverOvertakes(right, p - h, x);
        MergeKeepsOrder(Sort(left), Sort(right), x, s[p]);
      } else {
        forall a | a in Sort(left) ensures Compare(a, s[p]) <= 0 {
          SortKeepsMember(left, a);
        }
        SortKeepsMember(left, x);
        assert right[p - h] == s[p];
        SortKeepsMember(right, s[p]);
        MergeLeftFirst(Sort(left), Sort(right), x, s[p]);
      }
    }
  }

  // ----------------------------------------------- ties among what compares

  /** Whatever compares at most equal to y compares below what is above y. */
  ghost predicate Divides(s: seq<RefAction>, y: RefAction) {
    forall a, b :: a in s && b in s && Compare(a, y) <= 0 && Compare(b, y) > 0 ==>
                     Compare(a, b) <= 0 && Compare(b, a) > 0
  }

  /** Nothing above y stands in front of what is not. */
  ghost predicate BelowFirst(s: seq<RefAction>, y: RefAction) {
    forall i, j :: 0 <= i < j < |s| && Compare(s[j], y) <= 0 ==> Compare(s[i], y) <= 0
  }

  lemma {:induction false} BelowHead(head: RefAction, rest: seq<RefAction>, y: RefAction)
    requires BelowFirst(rest, y)
    requires Compare(head, y) <= 0 || forall a :: a in rest ==> Compare(a, y) > 0
    ensures BelowFirst([head] + rest, y)
  {
  }

  lemma {:induction false} AboveFirstMeansNone(s: seq<RefAction>, y: RefAction)
    requires s != [] && BelowFirst(s, y) && Compare(s[0], y) > 0
    ensures forall a :: a in s ==> Compare(a, y) > 0
  {
  }

  lemma {:induction false} MergeBelowFirst(left: seq<RefAction>, right: seq<RefAction>, y: RefAction)
    requires BelowFirst(left, y) && BelowFirst(right, y)
    requires forall a, b :: a in left && b in right && Compare(a, y) <= 0 && Compare(b, y) > 0 ==> Compare(a, b) <= 0
    requires forall a, b :: a in right && b in left && Compare(a, y) <= 0 && Compare(b, y) > 0 ==> Compare(b, a) > 0
    ensures BelowFirst(Merge(left, right), y)
  {
    if left != [] && right != [] {
      var fromLeft := Compare(left[0], right[0]) <= 0;
      var left' := if fromLeft then left[1..] else left;
      var right' := if fromLeft then right else right[1..];
      var head := if fromLeft then left[0] else right[0];
      MergeBelowFirst(left', right', y);
      if Compare(head, y) > 0 {
        AboveFirstMeansNone(left, y);
        AboveFirstMeansNone(right, y);
        forall a | a in Merge(left', right') ensures Compare(a, y) > 0 {
          MergeMember(left', right', a);
        }
      }
      BelowHead(head, Merge(left', right'), y);
    }
  }

  lemma {:induction false} SortBelowFirst(s: seq<RefAction>, y: RefAction)
    requires Divides(s, y)
    ensures BelowFirst(Sort(s), y)
  {
    if |s| > 1 {
      var left, right := s[..|s|/2], s[|s|/2..];
      SortBelowFirst(left, y);
      SortBelowFirst(right, y);
      forall a | a in Sort(left) ensures a in s {
        SortKeepsMember(left, a);
      }
      forall a | a in Sort(right) ensures a in s {
        SortKeepsMember(right, a);
      }
      MergeBelowFirst(Sort(left), Sort(right), y);
    }
  }

  lemma {:induction false} MergeBelowLeft(left: seq<RefAction>, right: seq<RefAction>, x: RefAction, y: RefAction)
    requires x in left && y in right && BelowFirst(left, y) && Compare(x, y) <= 0
    ensures Precedes(Merge(left, right), x, y)
  {
    var m := Merge(left, right);
    assert Compare(left[0], y) <= 0;
    if Compare(left[0], right[0]) <= 0 {
      assert m[1..] == Merge(left[1..], right);
      if x in left[1..] {
        MergeBelowLeft(left[1..], right, x, y);
      } else {
        MergeMember(left[1..], right, y);
      }
    } else {
      assert m[1..] == Merge(left, right[1..]);
      MergeBelowLeft(left, right[1..], x, y);
    }
  }

  /** Where the comparator divides the list at y, what compares at most equal to
      y and stands in front of it stays there. */
  lemma {:induction false} SortStableWhereDivided(s: seq<RefAction>, p: nat, x: RefAction)
    requires p < |s| && x in s[..p] && Divides(s, s[p]) && Compare(x, s[p]) <= 0
    ensures Precedes(Sort(s), x, s[p])
  {
    var h := |s| / 2;
    var left, right := s[..h], s[h..];
    if p < h {
      assert left[..p] == s[..p];
      SortStableWhereDivided(left, p, x);
      MergeKeepsOrder(Sort(left), Sort(right), x, s[p]);
    } else {
      assert s[..p] == left + right[..p - h];
      if x in right[..p - h] {
        SortStableWhereDivided(right, p - h, x);
        MergeKeepsOrder(Sort(left), Sort(right), x, s[p]);
      } else {
        SortBelowFirst(left, s[p]);
        SortKeepsMember(left, x);
        assert right[p - h] == s[p];
        SortKeepsMember(right, s[p]);
        MergeBelowLeft(Sort(left), Sort(right), x, s[p]);
      }
    }
  }
}
