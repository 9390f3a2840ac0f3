// Fetching an update under the download scheduler: waiting for permission, and
// giving the schedule entry back on every way out.

module Download {
  import opened Common

  /** What the main context can dispatch while the fetch waits. */
  datatype Signal = DownloadNow(allowed: bool) | Invalidated | TimedOut | CancelRequested

  datatype Flags = Flags(now: bool, invalidated: bool, timedOut: bool, cancelled: bool) {
    predicate Waiting() { !now && !invalidated && !timedOut && !cancelled }

    /** The effect of one signal; without a timeout no such signal is set up. */
    function On(signal: Signal, timeout: nat): Flags {
      match signal
      case DownloadNow(allowed) => this.(now := allowed)
      case Invalidated => this.(invalidated := true)
      case TimedOut => if timeout > 0 then this.(timedOut := true) else this
      case CancelRequested => this.(cancelled := true)
    }

    function OnAll(signals: seq<Signal>, timeout: nat): Flags {
      if signals == [] then this else OnAll(signals[..|signals|-1], timeout).On(signals[|signals|-1], timeout)
    }
  }

  /** The flags after the first n iterations, if the fetch still waits then. */
  function After(flags: Flags, rounds: seq<seq<Signal>>, timeout: nat, n: nat): Flags
    requires n <= |rounds|
  {
    if n == 0 then flags else After(flags, rounds, timeout, n - 1).OnAll(rounds[n - 1], timeout)
  }

  // ------------------------------------------------- what the signals decide

  ghost predicate Came(rounds: seq<seq<Signal>>, n: nat, signal: Signal)
    requires n <= |rounds|
  {
    exists m :: 0 <= m < n && signal in rounds[m]
  }

  /** The scheduler says nothing in these. */
  ghost predicate Silent(signals: seq<Signal>) {
    forall j :: 0 <= j < |signals| ==> !signals[j].DownloadNow?
  }

  /** Signal i of these is the last that the scheduler says. */
  ghost predicate SaidLast(signals: seq<Signal>, i: nat) {
    i < |signals| && signals[i].DownloadNow? && forall j :: i < j < |signals| ==> !signals[j].DownloadNow?
  }

  /** Signal i of round m is the scheduler's last word within n rounds. */
  ghost predicate LastWord(rounds: seq<seq<Signal>>, n: nat, m: nat, i: nat)
    requires n <= |rounds|
  {
    m < n && SaidLast(rounds[m], i) && forall l :: m < l < n ==> Silent(rounds[l])
  }

  /** The scheduler's last word within n rounds, or else the first, is yes. */
  ghost predicate Allowed(atOnce: bool, rounds: seq<seq<Signal>>, n: nat)
    requires n <= |rounds|
  {
    || (exists m: nat, i: nat :: LastWord(rounds, n, m, i) && rounds[m][i].allowed)
    || (atOnce && forall m :: 0 <= m < n ==> Silent(rounds[m]))
  }

  ghost predicate CalledOff(cancelledBefore: bool, rounds: seq<seq<Signal>>, timeout: nat, n: nat)
    requires n <= |rounds|
  {
    || cancelledBefore || Came(rounds, n, CancelRequested) || Came(rounds, n, Invalidated)
    || (timeout > 0 && Came(rounds, n, TimedOut))
  }

  /** Nothing has been decided after n rounds. */
  ghost predicate Open(outside: Outside, timeout: nat, n: nat)
    requires n <= |outside.rounds|
  {
    !Allowed(outside.allowedAtOnce, outside.rounds, n)
    && !CalledOff(outside.cancelledBefore, outside.rounds, timeout, n)
  }

  /** The download is allowed when waiting ends, even if it is called off too. */
  ghost predicate Granted(outside: Outside, timeout: nat) {
    exists n: nat :: GrantedAt(outside, timeout, n)
  }

  ghost predicate GrantedAt(outside: Outside, timeout: nat, n: nat) {
    && n <= |outside.rounds| && Allowed(outside.allowedAtOnce, outside.rounds, n)
    && forall m: nat :: m < n ==> Open(outside, timeout, m)
  }

  ghost predicate Undecided(outside: Outside, timeout: nat) {
    forall n: nat :: n <= |outside.rounds| ==> Open(outside, timeout, n)
  }

  // ------------------------------------------------------ the flags say the same

  lemma {:induction false} FlagsAfterAll(flags: Flags, signals: seq<Signal>, timeout: nat)
    ensures (var after := flags.OnAll(signals, timeout);
             && (after.invalidated <==> flags.invalidated || Invalidated in signals)
             && (after.cancelled <==> flags.cancelled || CancelRequested in signals)
             && (after.timedOut <==> flags.timedOut || (timeout > 0 && TimedOut in signals)))
  {
    if signals != [] {
      FlagsAfterAll(flags, signals[..|signals|-1], timeout);
      assert signals == signals[..|signals|-1] + [signals[|signals|-1]];
    }
  }

  lemma {:induction false} NowAfterAll(flags: Flags, signals: seq<Signal>, timeout: nat)
    ensures Silent(signals) ==> flags.OnAll(signals, timeout).now == flags.now
    ensures forall i: nat :: SaidLast(signals, i) ==> flags.OnAll(signals, timeout).now == signals[i].allowed
  {
    if signals != [] {
      var n := |signals| - 1;
      NowAfterAll(flags, signals[..n], timeout);
      forall i: nat | SaidLast(signals, i) ensures flags.OnAll(signals, timeout).now == signals[i].allowed {
        if i < n {
          assert SaidLast(signals[..n], i);
        }
      }
    }
  }

  lemma {:induction false} SomeLastWord(signals: seq<Signal>) returns (i: nat)
    requires !Silent(signals)
    ensures SaidLast(signals, i)
  {
    var n := |signals| - 1;
    if signals[n].DownloadNow? {
      i := n;
    } else {
      assert signals == signals[..n] + [signals[n]];
      i := SomeLastWord(signals[..n]);
    }
  }

  lemma {:induction false} AllowedAsBefore(atOnce: bool, rounds: seq<seq<Signal>>, n: nat)
    requires 0 < n <= |rounds| && Silent(rounds[n - 1])
    ensures Allowed(atOnce, rounds, n) <==> Allowed(atOnce, rounds, n - 1)
  {
    forall m: nat, i: nat ensures LastWord(rounds, n, m, i) <==> LastWord(rounds, n - 1, m, i) {
    }
  }

  lemma {:induction false} AllowedAsSaid(atOnce: bool, rounds: seq<seq<Signal>>, n: nat, i: nat)
    requires 0 < n <= |rounds| && SaidLast(rounds[n - 1], i)
    ensures Allowed(atOnce, rounds, n) <==> rounds[n - 1][i].allowed
  {
    assert LastWord(rounds, n, n - 1, i) && !Silent(rounds[n - 1]);
    forall m: nat, j: nat | LastWord(rounds, n, m, j) ensures m == n - 1 && j == i {
    }
  }

  lemma {:induction false} CameInRound(rounds: seq<seq<Signal>>, n: nat, signal: Signal)
    requires 0 < n <= |rounds|
    ensures Came(rounds, n, signal) <==> Came(rounds, n - 1, signal) || signal in rounds[n - 1]
  {
  }

  lemma {:induction false} FlagsBySignals(atOnce: bool, cancelledBefore: bool, rounds: seq<seq<Signal>>, timeout: nat,
                                          n: nat)
    requires n <= |rounds|
    ensures (var flags := After(Flags(atOnce, false, false, cancelledBefore), rounds, timeout, n);
             && (flags.now <==> Allowed(atOnce, rounds, n))
             && (flags.cancelled <==> cancelledBefore || Came(rounds, n, CancelRequested))
             && (flags.invalidated <==> Came(rounds, n, Invalidated))
             && (flags.timedOut <==> timeout > 0 && Came(rounds, n, TimedOut)))
  {
    if n > 0 {
      var before := After(Flags(atOnce, false, false, cancelledBefore), rounds, timeout, n - 1);
      FlagsBySignals(atOnce, cancelledBefore, rounds, timeout, n - 1);
      FlagsAfterAll(before, rounds[n - 1], timeout);
      NowAfterAll(before, rounds[n - 1], timeout);
      CameInRound(rounds, n, CancelRequested);
      CameInRound(rounds, n, Invalidated);
      CameInRound(rounds, n, TimedOut);
      if Silent(rounds[n - 1]) {
        AllowedAsBefore(atOnce, rounds, n);
      } else {
        var i := SomeLastWord(rounds[n - 1]);
        AllowedAsSaid(atOnce, rounds, n, i);
      }
    }
  }

  lemma {:induction false} StillOpen(outside: Outside, timeout: nat)
    requires Undecided(outside, timeout)
    ensures !Granted(outside, timeout)
  {
    forall n: nat ensures !GrantedAt(outside, timeout, n) {
      if n <= |outside.rounds| {
        assert Open(outside, timeout, n);
      }
    }
  }

  lemma {:induction false} NotGranted(outside: Outside, timeout: nat, n: nat)
    requires n <= |outside.rounds| && !Open(outside, timeout, n)
    requires !Allowed(outside.allowedAtOnce, outside.rounds, n)
    requires forall m: nat :: m < n ==> Open(outside, timeout, m)
    ensures !Granted(outside, timeout) && !Undecided(outside, timeout)
  {
    forall m: nat ensures !GrantedAt(outside, timeout, m) {
      if m < n {
        assert Open(outside, timeout, m);
      }
    }
  }

  // ---------------------------------------------------------- implementation

  predicate Added(before: set<nat>, entry: nat, after: set<nat>) {
    entry !in before && after == before + {entry}
  }

  /** The scheduler's own list of entries. */
  class Scheduler {
    var entries: set<nat>
    var next: nat

    constructor ()
      ensures Valid() && entries == {}
    {
      entries, next := {}, 0;
    }

    ghost predicate Valid()
      reads this
    {
      forall e :: e in entries ==> e < next
    }

    method Schedule(works: bool) returns (entry: Option<nat>)
      requires Valid()
      modifies this
      ensures Valid()
      ensures entry.Some? <==> works
      ensures entry.Some? ==> entry.value !in old(entries) && entries == old(entries) + {entry.value}
      ensures entry.None? ==> entries == old(entries)
    {
      if !works {
        return None;
      }
      entry := Some(next);
      entries, next := entries + {next}, next + 1;
    }

    /** Removing may fail for good; an invalidated entry is gone already. */
    method Remove(entry: nat, works: bool) returns (ok: bool)
      requires Valid()
      modifies this`entries
      ensures Valid() && ok == works
      ensures entries == if works then old(entries) - {entry} else old(entries)
    {
      if works {
        entries := entries - {entry};
      }
      return works;
    }
  }

  datatype Permission = Proceed | Refused | StillWaiting

  datatype Pull = Pulled | PullCancelled | PullFailed

  /** How everything outside the fetch turns out. */
  datatype Outside = Outside(scheduleWorks: bool, allowedAtOnce: bool, cancelledBefore: bool,
                             rounds: seq<seq<Signal>>, removeWorks: bool,
                             hasResults: bool, newPull: Pull, oldPull: Pull, flatpaks: Pull)

  datatype PullStep = WithResults | WithUrls | Flatpaks

  datatype Ending = Finished(ok: bool) | Blocked

  /** The new way is tried if the poll left results, the old way if it did not
      or if the new way failed for another reason than being cancelled, and the
      flatpaks come after the one that worked; the fetch works if they do. */
  ghost predicate PullsInTurn(outside: Outside, ok: bool, steps: seq<PullStep>) {
    if !outside.hasResults then
      if outside.oldPull == Pulled then steps == [WithUrls, Flatpaks] && ok == (outside.flatpaks == Pulled)
      else steps == [WithUrls] && !ok
    else
      match outside.newPull
      case Pulled => steps == [WithResults, Flatpaks] && ok == (outside.flatpaks == Pulled)
      case PullCancelled => steps == [WithResults] && !ok
      case PullFailed =>
        if outside.oldPull == Pulled then
          steps == [WithResults, WithUrls, Flatpaks] && ok == (outside.flatpaks == Pulled)
        else
          steps == [WithResults, WithUrls] && !ok
  }

  class Fetch {
    const force: bool
    const offlineOnly: bool
    const timeout: nat
    const scheduler: Scheduler
    var entry: Option<nat>

    constructor (force: bool, offlineOnly: bool, timeout: nat, scheduler: Scheduler)
      ensures this.force == force && this.offlineOnly == offlineOnly && this.timeout == timeout
      ensures this.scheduler == scheduler && entry == None
    {
      this.force, this.offlineOnly, this.timeout, this.scheduler := force, offlineOnly, timeout, scheduler;
      entry := None;
    }

    method UnscheduleDownload(works: bool) returns (ok: bool)
      requires scheduler.Valid()
      modifies this`entry, scheduler`entries
      ensures scheduler.Valid() && entry == None
      ensures old(entry).None? ==> ok && scheduler.entries == old(scheduler.entries)
      ensures old(entry).Some? ==> ok == works
      ensures old(entry).Some? ==> scheduler.entries == if works then old(scheduler.entries) - {old(entry).value}
                                                         else old(scheduler.entries)
    {
      var taken := entry;
      entry := None;
      if taken.None? {
        return true;
      }
      ok := scheduler.Remove(taken.value, works);
    }

    /** Waits for the scheduler unless forced or offline: permission comes with
        an entry of its own, refusal leaves none. */
    method CheckScheduler(outside: Outside) returns (permission: Permission)
      requires scheduler.Valid() && entry == None
      modifies this`entry, scheduler
      ensures scheduler.Valid()
      ensures force || offlineOnly ==>
                permission == Proceed && entry == None && scheduler.entries == old(scheduler.entries)
      ensures !force && !offlineOnly ==>
                && (permission == Proceed <==> outside.scheduleWorks && Granted(outside, timeout))
                && (permission == StillWaiting <==> outside.scheduleWorks && Undecided(outside, timeout))
                && (entry.Some? <==> permission != Refused)
                && (entry.Some? ==> Added(old(scheduler.entries), entry.value, scheduler.entries))
                && (entry.None? && outside.removeWorks ==> scheduler.entries == old(scheduler.entries))
    {
      if force || offlineOnly {
        return Proceed;
      }
      entry := scheduler.Schedule(outside.scheduleWorks);
      if entry.None? {
        return Refused;
      }
      var flags := Flags(outside.allowedAtOnce, false, false, outside.cancelledBefore);
      var n := 0;
      FlagsBySignals(outside.allowedAtOnce, outside.cancelledBefore, outside.rounds, timeout, n);
      while flags.Waiting() && n < |outside.rounds|
        modifies {}
        invariant n <= |outside.rounds|
        invariant flags == After(Flags(outside.allowedAtOnce, false, false, outside.cancelledBefore),
                                 outside.rounds, timeout, n)
        invariant flags.now <==> Allowed(outside.allowedAtOnce, outside.rounds, n)
        invariant flags.Waiting() <==> Open(outside, timeout, n)
        invariant forall m: nat :: m < n ==> Open(outside, timeout, m)
        decreases |outside.rounds| - n
      {
        flags := flags.OnAll(outside.rounds[n], timeout);
        n := n + 1;
        FlagsBySignals(outside.allowedAtOnce, outside.cancelledBefore, outside.rounds, timeout, n);
      }
      if flags.Waiting() {
        StillOpen(outside, timeout);
        return StillWaiting;
      }
      if flags.now {
        assert GrantedAt(outside, timeout, n);
        return Proceed;
      }
      NotGranted(outside, timeout, n);
      var removed := UnscheduleDownload(outside.removeWorks);
      return Refused;
    }

    /** Nothing is pulled before permission; whatever happens after it, the
        entry is given back; a cancelled pull is not tried another way. */
    method ContentFetch(outside: Outside) returns (ending: Ending, steps: seq<PullStep>)
      requires scheduler.Valid() && entry == None
      modifies this`entry, scheduler
      ensures scheduler.Valid()
      ensures ending.Finished? ==> entry == None
      ensures ending.Finished? && outside.removeWorks ==> scheduler.entries == old(scheduler.entries)
      ensures !force && !offlineOnly ==>
                && (steps != [] <==> outside.scheduleWorks && Granted(outside, timeout))
                && (ending.Blocked? <==> outside.scheduleWorks && Undecided(outside, timeout))
      ensures force || offlineOnly ==>
                ending.Finished? && steps != [] && scheduler.entries == old(scheduler.entries)
      ensures steps == [] ==> ending != Finished(true)
      ensures steps != [] ==> ending.Finished? && PullsInTurn(outside, ending.ok, steps)
    {
      steps := [];
      var permission := CheckScheduler(outside);
      match permission {
        case StillWaiting => return Blocked, [];
        case Refused => return Finished(false), [];
        case Proceed =>
      }
      var ok;
      ok, steps := PullAll(outside);
      var removed := UnscheduleDownload(outside.removeWorks);
      return Finished(ok), steps;
    }

    method PullAll(outside: Outside) returns (ok: bool, steps: seq<PullStep>)
      ensures steps != [] && PullsInTurn(outside, ok, steps)
    {
      steps := [];
      var fallBack := !outside.hasResults;
      if outside.hasResults {
        steps := steps + [WithResults];
        if outside.newPull == PullCancelled {
          return false, steps;
        }
        fallBack := outside.newPull == PullFailed;
      }
      if fallBack {
        steps := steps + [WithUrls];
        if outside.oldPull != Pulled {
          return false, steps;
        }
      }
      steps := steps + [Flatpaks];
      return outside.flatpaks == Pulled, steps;
    }
  }
}
