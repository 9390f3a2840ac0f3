// Flatpak ref actions, what they do to an installation, and the algebra of
// their effects.

module Actions {

  datatype RefKind = App | Runtime

  // Two refs are the same when kind, name, arch and branch all are.
  datatype Ref = Ref(kind: RefKind, name: string, arch: string, branch: string)

  datatype ActionType = Install | Uninstall | Update

  const MIN_INT32: int := -0x8000_0000
  const MAX_INT32: int := 0x7fff_ffff

  newtype int32 = x: int | MIN_INT32 <= x <= MAX_INT32

  /** One entry of an autoinstall file, or a dependency of one.  Actions are
      heap objects because squashing tells them apart by identity; nothing
      changes an action after it is made. */
  class RefAction {
    const action: ActionType
    const ref: Ref
    const source: string
    const serial: int32
    const isDependency: bool

    constructor (action: ActionType, ref: Ref, source: string, serial: int32, isDependency: bool)
      ensures this.action == action && this.ref == ref && this.source == source
      ensures this.serial == serial && this.isDependency == isDependency
    {
      this.action, this.ref, this.source := action, ref, source;
      this.serial, this.isDependency := serial, isDependency;
    }
  }

  ghost predicate DistinctRefs(s: seq<RefAction>) {
    forall i, j :: 0 <= i < j < |s| ==> s[i].ref != s[j].ref
  }

  ghost predicate Mentions(s: seq<RefAction>, r: Ref) {
    exists a :: a in s && a.ref == r
  }

  lemma {:induction false} SplitAt(s: seq<RefAction>, k: nat)
    requires k <= |s|
    ensures s == s[..k] + s[k..]
  {
  }

  lemma {:induction false} ConcatAssociates(s: seq<RefAction>, t: seq<RefAction>, u: seq<RefAction>)
    ensures (s + t) + u == s + (t + u)
  {
  }

  // ---------------------------------------------------------------- states

  datatype Freshness = Stale | Current

  /** A ref that is not a key is not installed. */
  type Installation = map<Ref, Freshness>

  datatype Status = NotInstalled | Present(freshness: Freshness)

  function StatusOf(m: Installation, r: Ref): Status {
    if r in m then Present(m[r]) else NotInstalled
  }

  /** What a successful action does: install means install or update, update
      leaves a missing ref missing, uninstall is unconditional. */
  function Effect(a: RefAction, m: Installation): Installation {
    match a.action
    case Install => m[a.ref := Current]
    case Uninstall => m - {a.ref}
    case Update => if a.ref in m then m[a.ref := Current] else m
  }

  /** Performing a whole list in order. */
  function Perform(s: seq<RefAction>, m: Installation): Installation {
    if s == [] then m else Effect(s[|s|-1], Perform(s[..|s|-1], m))
  }

  lemma {:induction false} PerformConcat(s: seq<RefAction>, t: seq<RefAction>, m: Installation)
    ensures Perform(s + t, m) == Perform(t, Perform(s, m))
  {
    if t == [] {
      assert s + t == s;
    } else {
      var u := t[..|t|-1];
      PerformConcat(s, u, m);
      assert (s + t)[..|s + t|-1] == s + u;
    }
  }

  // -------------------------------------------------------------- verdicts

  /** All that a list of actions can mean for one ref. */
  datatype Verdict = Untouched | Refreshed | Installed | Removed {
    predicate Decisive() { this == Installed || this == Removed }

    /** This verdict followed by v. */
    function Then(v: Verdict): Verdict {
      if v.Decisive() || this == Untouched then v else this
    }

    function On(st: Status): Status {
      match this
      case Untouched => st
      case Refreshed => if st.Present? then Present(Current) else NotInstalled
      case Installed => Present(Current)
      case Removed => NotInstalled
    }
  }

  function ActionVerdict(a: RefAction, r: Ref): Verdict {
    if a.ref != r then Untouched
    else match a.action
         case Install => Installed
         case Uninstall => Removed
         case Update => Refreshed
  }

  function VerdictOf(s: seq<RefAction>, r: Ref): Verdict {
    if s == [] then Untouched else VerdictOf(s[..|s|-1], r).Then(ActionVerdict(s[|s|-1], r))
  }

  lemma {:induction false} VerdictConcat(s: seq<RefAction>, t: seq<RefAction>, r: Ref)
    ensures VerdictOf(s + t, r) == VerdictOf(s, r).Then(VerdictOf(t, r))
  {
    if t == [] {
      assert s + t == s;
    } else {
      var u := t[..|t|-1];
      VerdictConcat(s, u, r);
      assert (s + t)[..|s + t|-1] == s + u;
    }
  }

  /** The verdict on a ref says exactly what performing the list does to it. */
  lemma {:induction false} PerformByVerdict(s: seq<RefAction>, m: Installation, r: Ref)
    ensures StatusOf(Perform(s, m), r) == VerdictOf(s, r).On(StatusOf(m, r))
  {
    if s != [] {
      PerformByVerdict(s[..|s|-1], m, r);
    }
  }

  lemma {:induction false} SameStatusSameInstallation(m: Installation, n: Installation)
    requires forall r :: StatusOf(m, r) == StatusOf(n, r)
    ensures m == n
  {
    forall r
      ensures r in m <==> r in n
      ensures r in m ==> m[r] == n[r]
    {
      assert StatusOf(m, r) == StatusOf(n, r);
    }
  }

  ghost predicate SameVerdicts(s: seq<RefAction>, t: seq<RefAction>) {
    forall r :: VerdictOf(s, r) == VerdictOf(t, r)
  }

  ghost predicate SameEffect(s: seq<RefAction>, t: seq<RefAction>) {
    forall m :: Perform(s, m) == Perform(t, m)
  }

  /** Verdicts are fully abstract: two lists do the same to every installation
      exactly when they pass the same verdict on every ref. */
  lemma {:induction false} SameEffectIffSameVerdicts(s: seq<RefAction>, t: seq<RefAction>)
    ensures SameEffect(s, t) <==> SameVerdicts(s, t)
  {
    if SameVerdicts(s, t) {
      forall m ensures Perform(s, m) == Perform(t, m) {
        SameVerdictsSameEffect(s, t, m);
      }
    } else if SameEffect(s, t) {
      forall r ensures VerdictOf(s, r) == VerdictOf(t, r) {
        SameEffectSameVerdict(s, t, r);
      }
    }
  }

  lemma {:induction false} SameEffectSameVerdict(s: seq<RefAction>, t: seq<RefAction>, r: Ref)
    requires SameEffect(s, t)
    ensures VerdictOf(s, r) == VerdictOf(t, r)
  {
    var bare: Installation, stale: Installation := map[], map[r := Stale];
    PerformByVerdict(s, bare, r);
    PerformByVerdict(t, bare, r);
    PerformByVerdict(s, stale, r);
    PerformByVerdict(t, stale, r);
    assert Perform(s, bare) == Perform(t, bare);
    assert Perform(s, stale) == Perform(t, stale);
  }

  lemma {:induction false} SameVerdictsSameEffect(s: seq<RefAction>, t: seq<RefAction>, m: Installation)
    requires SameVerdicts(s, t)
    ensures Perform(s, m) == Perform(t, m)
  {
    forall r ensures StatusOf(Perform(s, m), r) == StatusOf(Perform(t, m), r) {
      PerformByVerdict(s, m, r);
      PerformByVerdict(t, m, r);
      assert VerdictOf(s, r) == VerdictOf(t, r);
    }
    SameStatusSameInstallation(Perform(s, m), Perform(t, m));
  }

  lemma {:induction false} UnmentionedUntouched(s: seq<RefAction>, r: Ref)
    requires !Mentions(s, r)
    ensures VerdictOf(s, r) == Untouched
  {
    if s != [] {
      var u := s[..|s|-1];
      assert s[|s|-1] in s;
      assert forall a :: a in u ==> a in s;
      UnmentionedUntouched(u, r);
    }
  }

  /** When every ref has one action, only that action counts, wherever it is. */
  lemma {:induction false} VerdictOfDistinct(s: seq<RefAction>, a: RefAction)
    requires DistinctRefs(s) && a in s
    ensures VerdictOf(s, a.ref) == ActionVerdict(a, a.ref)
  {
    var u := s[..|s|-1];
    assert s == u + [s[|s|-1]];
    if s[|s|-1] == a {
      UnmentionedUntouched(u, a.ref);
    } else {
      VerdictOfDistinct(u, a);
    }
  }
}
