// Following end-of-life redirections from one ref to the next.

module Redirects {
  import opened Common

  datatype Refspec = Refspec(remote: string, ref: string)

  /** The commit a ref leads to; its object may be missing locally. */
  datatype Commit = Missing | Present(rebase: Option<string>, version: Option<string>, notes: Option<string>)

  /** What pulling and resolving a ref gives. */
  datatype Head = Unavailable | Head(checksum: string, commit: Commit)

  /** What each ref leads to; one that is not a key does not resolve. */
  type Heads = map<Refspec, Head>

  datatype Parsed = Parsed(redirected: bool, checksum: string, refspec: Refspec,
                           version: Option<string>, notes: Option<string>)

  /** Unfinished: still redirected after the rounds that are considered. */
  datatype Outcome = Failed | Unfinished | Latest(checksum: string, refspec: Refspec,
                                                  version: Option<string>, notes: Option<string>)

  // ---------------------------------------------------------- implementation

  function HeadOf(heads: Heads, refspec: Refspec): Head {
    if refspec in heads then heads[refspec] else Unavailable
  }

  method ParseLatestCommit(heads: Heads, refspec: Refspec) returns (parsed: Option<Parsed>)
    ensures parsed == Parse(heads, refspec)
  {
    var head := HeadOf(heads, refspec);
    if head.Unavailable? {
      return None;
    }
    var redirected, newRefspec := false, refspec;
    var version: Option<string>, notes: Option<string> := None, None;
    if head.commit.Present? {
      if head.commit.rebase.Some? && head.commit.rebase.value != refspec.ref {
        redirected, newRefspec := true, Refspec(refspec.remote, head.commit.rebase.value);
      }
      version, notes := head.commit.version, head.commit.notes;
    }
    return Some(Parsed(redirected, head.checksum, newRefspec, version, notes));
  }

  /** The loop: every round pulls afresh, and sees what the refs lead to by
      then. */
  method FetchLatestCommit(views: seq<Heads>, refspec: Refspec) returns (outcome: Outcome)
    ensures outcome == FetchThrough(views, refspec)
  {
    var upgrade := refspec;
    var round := 0;
    while round < |views|
      invariant round <= |views|
      invariant FetchThrough(views, refspec) == FetchThrough(views[round..], upgrade)
    {
      var parsed := ParseLatestCommit(views[round], upgrade);
      assert views[round..][1..] == views[round + 1..];
      if parsed.None? {
        return Failed;
      }
      if !parsed.value.redirected {
        return Latest(parsed.value.checksum, parsed.value.refspec, parsed.value.version, parsed.value.notes);
      }
      upgrade := parsed.value.refspec;
      round := round + 1;
    }
    return Unfinished;
  }

  // ------------------------------------------------------------ specification

  /** The ref a ref redirects to, which is never itself. */
  function Redirection(heads: Heads, refspec: Refspec): Option<Refspec> {
    match HeadOf(heads, refspec)
    case Head(_, Present(Some(target), _, _)) =>
      if target != refspec.ref then Some(Refspec(refspec.remote, target)) else None
    case _ => None
  }

  function VersionOf(commit: Commit): Option<string> {
    if commit.Present? then commit.version else None
  }

  function NotesOf(commit: Commit): Option<string> {
    if commit.Present? then commit.notes else None
  }

  function Parse(heads: Heads, refspec: Refspec): Option<Parsed> {
    match HeadOf(heads, refspec)
    case Unavailable => None
    case Head(checksum, commit) =>
      var target := Redirection(heads, refspec);
      Some(Parsed(target.Some?, checksum, if target.Some? then target.value else refspec,
                  VersionOf(commit), NotesOf(commit)))
  }

  function FetchThrough(views: seq<Heads>, refspec: Refspec): Outcome {
    if views == [] then Unfinished else
    match Parse(views[0], refspec)
    case None => Failed
    case Some(p) =>
      if p.redirected then FetchThrough(views[1..], p.refspec)
      else Latest(p.checksum, p.refspec, p.version, p.notes)
  }

  /** The ref the loop asks for in round n. */
  function Asked(views: seq<Heads>, refspec: Refspec, n: nat): Option<Refspec>
    requires n <= |views|
  {
    if n == 0 then Some(refspec) else
    match Asked(views, refspec, n - 1)
    case None => None
    case Some(r) => Redirection(views[n - 1], r)
  }

  /** The loop ends in round n, with a ref that redirects nowhere by then. */
  predicate EndsInRound(views: seq<Heads>, refspec: Refspec, n: nat) {
    n < |views| && Asked(views, refspec, n).Some? && Redirection(views[n], Asked(views, refspec, n).value).None?
  }

  lemma {:induction false} AskedFirst(views: seq<Heads>, refspec: Refspec, n: nat)
    requires n < |views| && Redirection(views[0], refspec).Some?
    ensures Asked(views, refspec, n + 1) == Asked(views[1..], Redirection(views[0], refspec).value, n)
  {
    if n > 0 {
      AskedFirst(views, refspec, n - 1);
      assert views[1..][n - 1] == views[n];
    }
  }

  lemma {:induction false} AskedOnSameRemote(views: seq<Heads>, refspec: Refspec, n: nat)
    requires n <= |views| && Asked(views, refspec, n).Some?
    ensures Asked(views, refspec, n).value.remote == refspec.remote
  {
    if n > 0 {
      AskedOnSameRemote(views, refspec, n - 1);
    }
  }

  /** Whatever the refs come to lead to meanwhile, the loop goes on until a ref
      redirects nowhere, and then returns what that ref, which is on the same
      remote, leads to in that round. */
  lemma {:induction false} LatestDescribesTerminal(views: seq<Heads>, refspec: Refspec) returns (n: nat)
    ensures n <= |views| && (FetchThrough(views, refspec).Unfinished? <==> n == |views|)
    ensures n == |views| ==> Asked(views, refspec, n).Some?
    ensures n != |views| ==>
              (var last := Asked(views, refspec, n);
               && EndsInRound(views, refspec, n) && last.value.remote == refspec.remote
               && FetchThrough(views, refspec) == FoundAt(views[n], last.value))
  {
    if views == [] {
      n := 0;
    } else if Redirection(views[0], refspec).None? {
      n := 0;
      assert Asked(views, refspec, 0) == Some(refspec);
    } else {
      var m := LatestDescribesTerminal(views[1..], Redirection(views[0], refspec).value);
      n := m + 1;
      AskedFirst(views, refspec, m);
      if n < |views| {
        AskedOnSameRemote(views, refspec, n);
      }
    }
  }

  /** What is returned for a ref that redirects nowhere. */
  function FoundAt(heads: Heads, refspec: Refspec): Outcome {
    match HeadOf(heads, refspec)
    case Unavailable => Failed
    case Head(checksum, commit) => Latest(checksum, refspec, VersionOf(commit), NotesOf(commit))
  }

  /** This commit redirects from r to another ref on the same remote. */
  ghost predicate Rebases(heads: Heads, r: Refspec, next: Refspec) {
    && r in heads && heads[r].Head? && heads[r].commit.Present? && heads[r].commit.rebase == Some(next.ref)
    && next.ref != r.ref && next.remote == r.remote
  }

  /** This commit redirects to no other ref. */
  ghost predicate Stays(heads: Heads, r: Refspec)
    requires r in heads && heads[r].Head?
  {
    heads[r].commit.Present? && heads[r].commit.rebase.Some? ==> heads[r].commit.rebase.value == r.ref
  }

  /** What comes back once the loop has asked for these refs, one in each
      round. */
  ghost predicate EndsWith(views: seq<Heads>, asked: seq<Refspec>, outcome: Outcome)
    requires asked != []
  {
    var n := |asked| - 1;
    var last := asked[n];
    if n >= |views| then n == |views| && outcome == Unfinished
    else if last !in views[n] || views[n][last].Unavailable? then outcome == Failed
    else
      var head := views[n][last];
      && Stays(views[n], last)
      && outcome == Latest(head.checksum, last, if head.commit.Present? then head.commit.version else None,
                           if head.commit.Present? then head.commit.notes else None)
  }

  /** The loop asks for one ref after another, as the commit that each leads to in
      its round rebases, until one does not; and returns what that one has. */
  lemma {:induction false} LoopFollowsRebases(views: seq<Heads>, refspec: Refspec) returns (asked: seq<Refspec>)
    ensures asked != [] && asked[0] == refspec && |asked| <= |views| + 1
    ensures forall i :: 0 <= i < |asked| - 1 ==> Rebases(views[i], asked[i], asked[i + 1])
    ensures EndsWith(views, asked, FetchThrough(views, refspec))
  {
    if views == [] || Redirection(views[0], refspec).None? {
      asked := [refspec];
    } else {
      var next := Redirection(views[0], refspec).value;
      var rest := LoopFollowsRebases(views[1..], next);
      asked := [refspec] + rest;
      forall i | 0 <= i < |asked| - 1 ensures Rebases(views[i], asked[i], asked[i + 1]) {
        if i > 0 {
          assert Rebases(views[1..][i - 1], rest[i - 1], rest[i]);
        }
      }
      assert asked[|asked| - 1] == rest[|rest| - 1];
    }
  }

  // ------------------------------------------- while refs lead to the same

  /** The same view in every round. */
  function Steady(heads: Heads, rounds: nat): seq<Heads> {
    seq(rounds, _ => heads)
  }

  function Fetch(heads: Heads, refspec: Refspec, rounds: nat): Outcome {
    FetchThrough(Steady(heads, rounds), refspec)
  }

  lemma {:induction false} FetchRound(heads: Heads, refspec: Refspec, rounds: nat)
    ensures Fetch(heads, refspec, rounds) ==
            if rounds == 0 then Unfinished
            else if Redirection(heads, refspec).Some? then
              Fetch(heads, Redirection(heads, refspec).value, rounds - 1)
            else FoundAt(heads, refspec)
  {
    if rounds > 0 {
      assert Steady(heads, rounds)[1..] == Steady(heads, rounds - 1);
    }
  }

  /** The ref that n redirections lead to. */
  function Follow(heads: Heads, refspec: Refspec, n: nat): Option<Refspec> {
    if n == 0 then Some(refspec) else
    match Follow(heads, refspec, n - 1)
    case None => None
    case Some(r) => Redirection(heads, r)
  }

  // ------------------------------------------------------- where chains lead

  lemma {:induction false} FollowFirst(heads: Heads, refspec: Refspec, n: nat)
    requires Redirection(heads, refspec).Some?
    ensures Follow(heads, refspec, n + 1) == Follow(heads, Redirection(heads, refspec).value, n)
  {
    if n > 0 {
      FollowFirst(heads, refspec, n - 1);
    }
  }

  lemma {:induction false} FollowDefined(heads: Heads, refspec: Refspec, m: nat, n: nat)
    requires m <= n && Follow(heads, refspec, n).Some?
    ensures Follow(heads, refspec, m).Some?
  {
    if m < n {
      FollowDefined(heads, refspec, m, n - 1);
    }
  }

  /** The chain ends after n redirections, in a ref that redirects nowhere. */
  predicate EndsAfter(heads: Heads, refspec: Refspec, n: nat) {
    Follow(heads, refspec, n).Some? && Redirection(heads, Follow(heads, refspec, n).value).None?
  }

  /** The loop finishes exactly when it is allowed more rounds than the chain
      has redirections, and then returns what the last ref of the chain says. */
  lemma {:induction false} FetchIsLastOfChain(heads: Heads, refspec: Refspec, n: nat, rounds: nat)
    requires EndsAfter(heads, refspec, n)
    ensures Fetch(heads, refspec, rounds).Unfinished? <==> rounds <= n
    ensures rounds > n ==> Fetch(heads, refspec, rounds) == FoundAt(heads, Follow(heads, refspec, n).value)
    decreases rounds
  {
    FetchRound(heads, refspec, rounds);
    if n == 0 {
    } else {
      FollowDefined(heads, refspec, 1, n);
      assert Follow(heads, refspec, 0).Some?;
      FollowFirst(heads, refspec, n - 1);
      if rounds > 0 {
        FetchIsLastOfChain(heads, Redirection(heads, refspec).value, n - 1, rounds - 1);
      }
    }
  }

  lemma {:induction false} FinishedChain(heads: Heads, refspec: Refspec, rounds: nat) returns (n: nat)
    requires !Fetch(heads, refspec, rounds).Unfinished?
    ensures n < rounds && EndsAfter(heads, refspec, n)
    decreases rounds
  {
    FetchRound(heads, refspec, rounds);
    if Redirection(heads, refspec).None? {
      n := 0;
    } else {
      n := FinishedChain(heads, Redirection(heads, refspec).value, rounds - 1);
      FollowFirst(heads, refspec, n);
      n := n + 1;
    }
  }

  // -------------------------------------------------------------- termination

  /** The refs of the chain, up to n redirections. */
  function Visited(heads: Heads, refspec: Refspec, n: nat): seq<Refspec>
    requires Follow(heads, refspec, n).Some?
  {
    if n == 0 then [refspec]
    else FollowDefined(heads, refspec, n - 1, n); Visited(heads, refspec, n - 1) + [Follow(heads, refspec, n).value]
  }

  predicate Repeats(heads: Heads, refspec: Refspec, i: nat, j: nat) {
    i < j && Follow(heads, refspec, j).Some? && Follow(heads, refspec, i) == Follow(heads, refspec, j)
  }

  lemma {:induction false} RepeatGoesOn(heads: Heads, refspec: Refspec, i: nat, j: nat, k: nat)
    requires Repeats(heads, refspec, i, j)
    ensures Follow(heads, refspec, i + k) == Follow(heads, refspec, j + k)
  {
    if k > 0 {
      RepeatGoesOn(heads, refspec, i, j, k - 1);
    }
  }

  /** A chain that comes back to a ref never ends. */
  lemma {:induction false} RepeatNeverEnds(heads: Heads, refspec: Refspec, i: nat, j: nat, n: nat)
    requires Repeats(heads, refspec, i, j)
    ensures Follow(heads, refspec, n).Some? && !EndsAfter(heads, refspec, n)
    decreases n
  {
    if n < j {
      FollowDefined(heads, refspec, n, j);
      if EndsAfter(heads, refspec, n) {
        FollowDefined(heads, refspec, n + 1, j);
      }
    } else {
      RepeatGoesOn(heads, refspec, i, j, n - j);
      RepeatNeverEnds(heads, refspec, i, j, i + (n - j));
    }
  }

  lemma {:induction false} VisitedAre(heads: Heads, refspec: Refspec, n: nat)
    requires Follow(heads, refspec, n).Some?
    ensures |Visited(heads, refspec, n)| == n + 1
    ensures forall i :: 0 <= i <= n ==> Follow(heads, refspec, i) == Some(Visited(heads, refspec, n)[i])
  {
    if n > 0 {
      FollowDefined(heads, refspec, n - 1, n);
      VisitedAre(heads, refspec, n - 1);
    }
  }

  predicate Distinct(s: seq<Refspec>) {
    forall i, j :: 0 <= i < j < |s| ==> s[i] != s[j]
  }

  lemma {:induction false} DistinctFit(s: seq<Refspec>, t: set<Refspec>)
    requires Distinct(s) && forall x :: x in s ==> x in t
    ensures |s| <= |t|
  {
    if s != [] {
      var last, rest := s[|s|-1], s[..|s|-1];
      forall x | x in rest ensures x in t - {last} {
        var i :| 0 <= i < |rest| && rest[i] == x;
        assert s[i] != s[|s|-1];
      }
      DistinctFit(rest, t - {last});
      assert |t - {last}| == |t| - 1;
    }
  }

  /** All refs of a chain that redirect somewhere resolve. */
  lemma {:induction false} LongChainRepeats(heads: Heads, refspec: Refspec, n: nat) returns (i: nat, j: nat)
    requires Follow(heads, refspec, n + 1).Some? && n >= |heads|
    ensures Repeats(heads, refspec, i, j) && j <= n
  {
    FollowDefined(heads, refspec, n, n + 1);
    VisitedAre(heads, refspec, n);
    var s := Visited(heads, refspec, n);
    if Distinct(s) {
      forall x | x in s ensures x in heads.Keys {
        var k :| 0 <= k < |s| && s[k] == x;
        FollowDefined(heads, refspec, k + 1, n + 1);
      }
      DistinctFit(s, heads.Keys);
      assert false;
    }
    i, j :| 0 <= i < j < |s| && s[i] == s[j];
  }

  ghost predicate NeverFinishes(heads: Heads, refspec: Refspec) {
    forall rounds: nat :: Fetch(heads, refspec, rounds).Unfinished?
  }

  ghost predicate ComesBack(heads: Heads, refspec: Refspec) {
    exists i: nat, j: nat :: Repeats(heads, refspec, i, j)
  }

  lemma {:induction false} UnfinishedFollows(heads: Heads, refspec: Refspec, rounds: nat)
    requires Fetch(heads, refspec, rounds).Unfinished?
    ensures Follow(heads, refspec, rounds).Some?
    decreases rounds
  {
    FetchRound(heads, refspec, rounds);
    if rounds > 0 {
      UnfinishedFollows(heads, Redirection(heads, refspec).value, rounds - 1);
      FollowFirst(heads, refspec, rounds - 1);
    }
  }

  /** However many rounds it gets, the loop does not finish, exactly if the
      chain comes back to a ref it has been to. */
  lemma {:induction false} NeverFinishesIffComesBack(heads: Heads, refspec: Refspec)
    ensures NeverFinishes(heads, refspec) <==> ComesBack(heads, refspec)
  {
    if NeverFinishes(heads, refspec) {
      assert Fetch(heads, refspec, |heads| + 1).Unfinished?;
      UnfinishedFollows(heads, refspec, |heads| + 1);
      var i, j := LongChainRepeats(heads, refspec, |heads|);
    }
    if ComesBack(heads, refspec) {
      var i: nat, j: nat :| Repeats(heads, refspec, i, j);
      forall rounds: nat ensures Fetch(heads, refspec, rounds).Unfinished? {
        if !Fetch(heads, refspec, rounds).Unfinished? {
          var n := FinishedChain(heads, refspec, rounds);
          RepeatNeverEnds(heads, refspec, i, j, n);
        }
      }
    }
  }

  lemma {:induction false} EndingChainDistinct(heads: Heads, refspec: Refspec, n: nat)
    requires EndsAfter(heads, refspec, n)
    ensures Distinct(Visited(heads, refspec, n)) && |Visited(heads, refspec, n)| == n + 1
  {
    VisitedAre(heads, refspec, n);
    var s := Visited(heads, refspec, n);
    forall i, j | 0 <= i < j < |s| ensures s[i] != s[j] {
      FollowDefined(heads, refspec, j, n);
      if s[i] == s[j] {
        RepeatNeverEnds(heads, refspec, i, j, n);
      }
    }
  }

  lemma {:induction false} DistinctFront(s: seq<Refspec>)
    requires Distinct(s) && s != []
    ensures Distinct(s[..|s|-1]) && s[|s|-1] !in s[..|s|-1]
  {
    var rest := s[..|s|-1];
    forall i, j | 0 <= i < j < |rest| ensures rest[i] != rest[j] {
      assert rest[i] == s[i] && rest[j] == s[j];
    }
  }

  lemma {:induction false} DistinctCount(s: seq<Refspec>)
    requires Distinct(s)
    ensures |set x | x in s| == |s|
  {
    if s != [] {
      var last, rest := s[|s|-1], s[..|s|-1];
      DistinctFront(s);
      hide Distinct;
      DistinctCount(rest);
      assert s == rest + [last];
      assert (set x | x in s) == (set x | x in rest) + {last};
    } else {
      assert (set x | x in s) == {};
    }
  }

  /** A chain that ends is followed to its end in as many rounds as there are
      distinct refs on it, and not in fewer. */
  lemma {:induction false} RoundsNeeded(heads: Heads, refspec: Refspec, n: nat)
    requires EndsAfter(heads, refspec, n)
    ensures (var refs := set r | r in Visited(heads, refspec, n);
             forall rounds: nat :: Fetch(heads, refspec, rounds).Unfinished? <==> rounds < |refs|)
  {
    EndingChainDistinct(heads, refspec, n);
    DistinctCount(Visited(heads, refspec, n));
    forall rounds: nat ensures Fetch(heads, refspec, rounds).Unfinished? <==> rounds <= n {
      FetchIsLastOfChain(heads, refspec, n, rounds);
    }
  }

  /** Only a ref that redirects to itself is guarded against: two refs that
      redirect to each other keep the loop going for ever. */
  lemma {:induction false} TwoRefsNeverFinish(heads: Heads, a: Refspec, b: Refspec)
    requires Redirection(heads, a) == Some(b) && Redirection(heads, b) == Some(a)
    ensures NeverFinishes(heads, a)
  {
    assert Follow(heads, a, 1) == Redirection(heads, Follow(heads, a, 0).value);
    assert Follow(heads, a, 2) == Redirection(heads, Follow(heads, a, 1).value);
    assert Repeats(heads, a, 0, 2);
    NeverFinishesIffComesBack(heads, a);
  }
}
