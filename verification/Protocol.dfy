// The updater daemon as a state machine: method calls and worker completions,
// each handled in one go by the main thread.

module Protocol {
  import opened Common

  datatype State =
    | NoState | Ready | Error | Polling | UpdateAvailable | Fetching | UpdateReady | ApplyingUpdate | UpdateApplied

  datatype Job = PollJob | PollVolumeJob | FetchJob | ApplyJob

  datatype Result<T> = Success(value: T) | Failure(error: ErrorName)

  type ErrorName = s: string | s != "" witness "e"

  const CANCELLED: ErrorName := "com.endlessm.Updater.Error.Cancelled"

  /** What a poll found: the update, where to get it, and whether all of those
      places are offline ones. */
  datatype Info = Info(id: string, refspec: string, original: string, visible: bool,
                       results: seq<string>, offline: bool)

  /** A task in the worker thread, with its own copy of what it needs. */
  datatype Worker = Worker(job: Job, token: nat, id: string, refspec: string, original: string)

  /** token is the cancellable the next task gets; next is one never used. */
  datatype Daemon = Daemon(state: State, errorName: string,
                           id: string, refspec: string, original: string, visible: bool,
                           results: seq<string>, offline: bool,
                           token: nat, cancelled: set<nat>, next: nat, workers: seq<Worker>)

  datatype Event =
    | Call(job: Job)
    | Cancel
    | PollFinished(worker: nat, found: Result<Option<Info>>, sizes: Result<()>)
    | FetchFinished(worker: nat, fetched: Result<()>)
    | ApplyFinished(worker: nat, applied: Result<()>)

  // ------------------------------------------------------------------- steps

  predicate Accepts(state: State, job: Job) {
    match job
    case PollJob => state in {Ready, UpdateAvailable, UpdateReady, Error}
    case PollVolumeJob => state in {Ready, UpdateAvailable, UpdateReady, Error}
    case FetchJob => state == UpdateAvailable
    case ApplyJob => state == UpdateReady
  }

  predicate AcceptsCancel(state: State) {
    state in {Polling, Fetching, ApplyingUpdate}
  }

  function StateOf(job: Job): State {
    match job
    case PollJob => Polling
    case PollVolumeJob => Polling
    case FetchJob => Fetching
    case ApplyJob => ApplyingUpdate
  }

  function WithFreshToken(d: Daemon): Daemon {
    if d.token in d.cancelled then d.(token := d.next, next := d.next + 1) else d
  }

  function WithError(d: Daemon, error: ErrorName): Daemon {
    d.(errorName := error, state := Error)
  }

  function WithoutError(d: Daemon, state: State): Daemon {
    d.(errorName := "", state := state)
  }

  function NewWorker(d: Daemon, job: Job, token: nat): Worker {
    match job
    case PollJob => Worker(job, token, "", "", "")
    case PollVolumeJob => Worker(job, token, "", "", "")
    case FetchJob => Worker(job, token, d.id, d.refspec, "")
    case ApplyJob => Worker(job, token, d.id, d.refspec, d.original)
  }

  function Started(d: Daemon, job: Job): Daemon {
    var ready := WithoutError(WithFreshToken(d), StateOf(job));
    ready.(workers := ready.workers + [NewWorker(d, job, ready.token)])
  }

  /** A cancelled task reports that, whatever its thread returned. */
  function Delivered<T>(d: Daemon, i: nat, outcome: Result<T>): Result<T>
    requires i < |d.workers|
  {
    if d.workers[i].token in d.cancelled then Failure(CANCELLED) else outcome
  }

  function Without(d: Daemon, i: nat): Daemon
    requires i < |d.workers|
  {
    d.(workers := d.workers[..i] + d.workers[i + 1..])
  }

  function WithInfo(d: Daemon, info: Info): Daemon {
    d.(id := info.id, refspec := info.refspec, original := info.original, visible := info.visible,
       results := info.results, offline := info.offline)
  }

  function PollEnded(d: Daemon, found: Result<Option<Info>>, sizes: Result<()>): Daemon {
    match found
    case Failure(error) => WithError(d, error)
    case Success(None) => WithoutError(d, Ready)
    case Success(Some(info)) =>
      var offering := WithInfo(WithoutError(d, UpdateAvailable), info);
      if sizes.Failure? then WithError(offering, sizes.error) else offering
  }

  function Ended(d: Daemon, outcome: Result<()>, next: State): Daemon {
    if outcome.Failure? then WithError(d, outcome.error) else WithoutError(d, next)
  }

  /** Only a task that exists can finish, and only as its own kind. */
  predicate Enabled(d: Daemon, e: Event) {
    match e
    case Call(_) => true
    case Cancel => true
    case PollFinished(i, _, _) => i < |d.workers| && d.workers[i].job in {PollJob, PollVolumeJob}
    case FetchFinished(i, _) => i < |d.workers| && d.workers[i].job == FetchJob
    case ApplyFinished(i, _) => i < |d.workers| && d.workers[i].job == ApplyJob
  }

  /** An event that cannot happen changes nothing. */
  function Step(d: Daemon, e: Event): Daemon {
    if !Enabled(d, e) then d else
    match e
    case Call(job) => if Accepts(d.state, job) then Started(d, job) else d
    case Cancel => if AcceptsCancel(d.state) then WithFreshToken(d.(cancelled := d.cancelled + {d.token})) else d
    case PollFinished(i, found, sizes) => PollEnded(Without(d, i), Delivered(d, i, found), sizes)
    case FetchFinished(i, fetched) => Ended(Without(d, i), Delivered(d, i, fetched), UpdateReady)
    case ApplyFinished(i, applied) => Ended(Without(d, i), Delivered(d, i, applied), UpdateApplied)
  }

  function Run(d: Daemon, es: seq<Event>): Daemon {
    if es == [] then d else Step(Run(d, es[..|es|-1]), es[|es|-1])
  }

  predicate Initial(d: Daemon) {
    && ((d.state == Ready && d.errorName == "") || (d.state == Error && d.errorName != ""))
    && d.workers == [] && d.cancelled == {} && d.token < d.next
  }

  // -------------------------------------------------------- mutual exclusion

  ghost predicate OneWorker(d: Daemon) {
    && (AcceptsCancel(d.state) ==> |d.workers| == 1 && StateOf(d.workers[0].job) == d.state)
    && (!AcceptsCancel(d.state) ==> d.workers == [])
  }

  ghost predicate TokensInOrder(d: Daemon) {
    && d.token !in d.cancelled && d.token < d.next
    && (forall t :: t in d.cancelled ==> t < d.next)
    && (forall w :: w in d.workers ==> w.token in d.cancelled || w.token == d.token)
  }

  ghost predicate OwnCopy(d: Daemon) {
    forall w :: w in d.workers ==> w == NewWorker(d, w.job, w.token)
  }

  ghost predicate Good(d: Daemon) {
    && OneWorker(d) && TokensInOrder(d) && OwnCopy(d)
    && d.state != NoState && (d.state == Error <==> d.errorName != "")
  }

  lemma {:induction false} StartKeepsGood(d: Daemon, job: Job)
    requires Good(d) && Accepts(d.state, job)
    ensures Good(Started(d, job))
  {
    var token := WithFreshToken(d).token;
    assert Started(d, job).workers == [NewWorker(d, job, token)];
    assert NewWorker(Started(d, job), job, token) == NewWorker(d, job, token);
  }

  lemma {:induction false} OnlyWorkerGone(d: Daemon, i: nat)
    requires OneWorker(d) && i < |d.workers|
    ensures i == 0 && Without(d, i).workers == []
  {
  }

  lemma {:induction false} IdleIsGood(d: Daemon, state: State, error: string)
    requires TokensInOrder(d) && d.workers == []
    requires state in {Ready, Error, UpdateAvailable, UpdateReady, UpdateApplied} && (state == Error <==> error != "")
    ensures Good(d.(state := state, errorName := error))
  {
  }

  lemma {:induction false} PollEndKeepsGood(d: Daemon, found: Result<Option<Info>>, sizes: Result<()>)
    requires TokensInOrder(d) && d.workers == []
    ensures Good(PollEnded(d, found, sizes))
  {
    var after := PollEnded(d, found, sizes);
    IdleIsGood(if found.Success? && found.value.Some? then WithInfo(d, found.value.value) else d,
               after.state, after.errorName);
  }

  lemma {:induction false} EndKeepsGood(d: Daemon, e: Event, i: nat)
    requires Good(d) && Enabled(d, e)
    requires !e.Call? && !e.Cancel? && i == e.worker
    ensures Good(Step(d, e))
  {
    OnlyWorkerGone(d, i);
    var rest := Without(d, i);
    match e
    case PollFinished(_, found, sizes) => PollEndKeepsGood(rest, Delivered(d, i, found), sizes);
    case FetchFinished(_, fetched) => IdleIsGood(rest, Step(d, e).state, Step(d, e).errorName);
    case ApplyFinished(_, applied) => IdleIsGood(rest, Step(d, e).state, Step(d, e).errorName);
  }

  lemma {:induction false} CancelKeepsGood(d: Daemon)
    requires Good(d)
    ensures Good(Step(d, Cancel))
  {
    var after := Step(d, Cancel);
    forall w | w in after.workers ensures w.token in after.cancelled || w.token == after.token {
      assert w in d.workers;
    }
    forall w | w in after.workers ensures w == NewWorker(after, w.job, w.token) {
      assert w in d.workers;
    }
  }

  lemma {:induction false} StepKeepsGood(d: Daemon, e: Event)
    requires Good(d)
    ensures Good(Step(d, e))
  {
    if Enabled(d, e) {
      match e
      case Call(job) =>
        if Accepts(d.state, job) {
          StartKeepsGood(d, job);
        }
      case Cancel => CancelKeepsGood(d);
      case PollFinished(i, _, _) => EndKeepsGood(d, e, i);
      case FetchFinished(i, _) => EndKeepsGood(d, e, i);
      case ApplyFinished(i, _) => EndKeepsGood(d, e, i);
    }
  }

  /** In every run there is a worker exactly in the three busy states, only one,
      and of the kind the state names; it works on the update on offer; the
      token kept for the next task is not cancelled. */
  lemma {:induction false} AlwaysOneWorker(d: Daemon, es: seq<Event>)
    requires Initial(d)
    ensures Good(Run(d, es))
  {
    if es != [] {
      AlwaysOneWorker(d, es[..|es|-1]);
      StepKeepsGood(Run(d, es[..|es|-1]), es[|es|-1]);
    }
  }

  /** Starting a task needs that none is running, cancelling needs one. */
  lemma {:induction false} CallsExclude(d: Daemon, es: seq<Event>, job: Job)
    requires Initial(d)
    ensures Accepts(Run(d, es).state, job) ==> Run(d, es).workers == []
    ensures AcceptsCancel(Run(d, es).state) <==> Run(d, es).workers != []
    ensures Accepts(Run(d, es).state, job) ==>
              (var after := Run(d, es + [Call(job)]);
               |after.workers| == 1 && after.workers[0].token !in after.cancelled)
  {
    AlwaysOneWorker(d, es);
    assert (es + [Call(job)])[..|es|] == es;
  }

  /** The update on offer and where to get it are the same. */
  ghost predicate SameOffer(d: Daemon, d': Daemon) {
    && d'.id == d.id && d'.refspec == d.refspec && d'.original == d.original && d'.visible == d.visible
    && d'.results == d.results && d'.offline == d.offline
  }

  /** The calls to be accepted: a poll whenever nothing runs and no update has
      been applied, a fetch of what is available, and an apply of what is ready. */
  ghost predicate Timely(d: Daemon, job: Job) {
    match job
    case PollJob => d.workers == [] && d.state != UpdateApplied
    case PollVolumeJob => d.workers == [] && d.state != UpdateApplied
    case FetchJob => d.state == UpdateAvailable
    case ApplyJob => d.state == UpdateReady
  }

  /** The daemon has started this task, on the update it had on offer. */
  ghost predicate Busy(before: Daemon, after: Daemon, job: Job) {
    && |after.workers| == 1 && after.errorName == "" && SameOffer(before, after)
    && (var worker := after.workers[0];
        && worker.job == job && worker.token !in after.cancelled
        && match job
           case PollJob => after.state == Polling
           case PollVolumeJob => after.state == Polling
           case FetchJob =>
             after.state == Fetching && worker.id == before.id && worker.refspec == before.refspec
           case ApplyJob =>
             && after.state == ApplyingUpdate && worker.id == before.id && worker.refspec == before.refspec
             && worker.original == before.original)
  }

  /** In every run a timely call starts its task, and any other changes nothing. */
  lemma {:induction false} CallAnswered(d: Daemon, es: seq<Event>, job: Job)
    requires Initial(d)
    ensures Timely(Run(d, es), job) ==> Busy(Run(d, es), Run(d, es + [Call(job)]), job)
    ensures !Timely(Run(d, es), job) ==> Run(d, es + [Call(job)]) == Run(d, es)
  {
    AlwaysOneWorker(d, es);
    assert (es + [Call(job)])[..|es|] == es;
  }

  /** In every run Cancel cancels the task that runs, and no later one, and
      changes nothing else; without a task it changes nothing. */
  lemma {:induction false} CancelAnswered(d: Daemon, es: seq<Event>)
    requires Initial(d)
    ensures (var before, after := Run(d, es), Run(d, es + [Cancel]);
             if before.workers == [] then after == before
             else
               && after.workers == before.workers && after.state == before.state && SameOffer(before, after)
               && after.errorName == before.errorName
               && after.workers[0].token in after.cancelled && after.token !in after.cancelled)
  {
    AlwaysOneWorker(d, es);
    assert (es + [Cancel])[..|es|] == es;
    StepKeepsGood(Run(d, es), Cancel);
  }

  ghost predicate SameShared(d: Daemon, d': Daemon) {
    && d'.workers == d.workers && d'.state == d.state
    && d'.results == d.results && d'.offline == d.offline
    && d'.id == d.id && d'.refspec == d.refspec && d'.original == d.original && d'.visible == d.visible
  }

  lemma {:induction false} StepShares(d: Daemon, e: Event)
    requires Good(d) && d.workers != [] && Step(d, e).workers != []
    ensures SameShared(d, Step(d, e))
  {
    if Enabled(d, e) && !e.Call? && !e.Cancel? {
      EndsWorker(d, e, e.worker);
      assert false;
    }
  }

  /** As long as a worker lives, nobody changes what it shares. */
  lemma {:induction false} SharedDataStable(d: Daemon, es: seq<Event>, e: Event)
    requires Initial(d)
    requires Run(d, es).workers != [] && Run(d, es + [e]).workers != []
    ensures SameShared(Run(d, es), Run(d, es + [e]))
  {
    AlwaysOneWorker(d, es);
    assert (es + [e])[..|es|] == es;
    StepShares(Run(d, es), e);
  }

  lemma {:induction false} NothingAfterApplied(d: Daemon, e: Event)
    requires Good(d) && d.state == UpdateApplied
    ensures Step(d, e) == d
  {
  }

  /** Once an update has been applied, no event changes anything. */
  lemma {:induction false} AppliedIsFinal(d: Daemon, es: seq<Event>, more: seq<Event>)
    requires Initial(d) && Run(d, es).state == UpdateApplied
    ensures Run(d, es + more) == Run(d, es)
  {
    if more == [] {
      assert es + more == es;
    } else {
      var n := |more| - 1;
      hide Step, Good, Initial;
      AppliedIsFinal(d, es, more[..n]);
      AlwaysOneWorker(d, es);
      NothingAfterApplied(Run(d, es), more[n]);
      assert (es + more)[..|es + more| - 1] == es + more[..n];
    }
  }

  // ------------------------------------------------------------ cancellation

  ghost predicate StartedAt(d: Daemon, es: seq<Event>, s: nat) {
    && s < |es| && es[s].Call? && Accepts(Run(d, es[..s]).state, es[s].job)
    && forall k :: s < k <= |es| ==> Run(d, es[..k]).workers == Run(d, es[..s + 1]).workers
  }

  ghost predicate CancelledSince(es: seq<Event>, s: nat) {
    exists c :: s < c < |es| && es[c] == Cancel
  }

  /** A worker's token is cancelled exactly if Cancel was called since that
      worker started: cancelling never reaches a later task. */
  lemma {:induction false} CancelledIffCalled(d: Daemon, es: seq<Event>)
    requires Initial(d) && Run(d, es).workers != []
    ensures exists s: nat :: StartedAt(d, es, s)
                     && (Run(d, es).workers[0].token in Run(d, es).cancelled <==> CancelledSince(es, s))
  {
    assert es != [];
    var n := |es| - 1;
    var was := Run(d, es[..n]);
    AlwaysOneWorker(d, es[..n]);
    if was.workers == [] {
      JustStarted(d, es);
      assert StartedAt(d, es, n);
    } else {
      CancelledIffCalled(d, es[..n]);
      var s: nat :| StartedAt(d, es[..n], s) && (was.workers[0].token in was.cancelled <==> CancelledSince(es[..n], s));
      WorkerLivesOn(was, es[n]);
      StillStarted(d, es, s);
      LaterCancel(es, s);
    }
  }

  lemma {:induction false} JustStarted(d: Daemon, es: seq<Event>)
    requires es != [] && Good(Run(d, es[..|es|-1]))
    requires Run(d, es[..|es|-1]).workers == [] && Run(d, es).workers != []
    ensures StartedAt(d, es, |es| - 1) && !CancelledSince(es, |es| - 1)
    ensures Run(d, es).workers[0].token !in Run(d, es).cancelled
  {
    assert es[..|es|] == es;
  }

  lemma {:induction false} WorkerLivesOn(d: Daemon, e: Event)
    requires Good(d) && d.workers != [] && Step(d, e).workers != []
    ensures Step(d, e).workers == d.workers
    ensures d.workers[0].token in Step(d, e).cancelled <==> d.workers[0].token in d.cancelled || e == Cancel
  {
    if Enabled(d, e) && !e.Call? && !e.Cancel? {
      EndsWorker(d, e, e.worker);
      assert false;
    }
  }

  lemma {:induction false} EndsWorker(d: Daemon, e: Event, i: nat)
    requires OneWorker(d) && Enabled(d, e) && !e.Call? && !e.Cancel? && i == e.worker
    ensures Step(d, e).workers == []
  {
    OnlyWorkerGone(d, i);
  }

  lemma {:induction false} StillStarted(d: Daemon, es: seq<Event>, s: nat)
    requires es != [] && StartedAt(d, es[..|es|-1], s)
    requires Run(d, es).workers == Run(d, es[..|es|-1]).workers
    ensures StartedAt(d, es, s)
  {
    var n := |es| - 1;
    assert es[..n][..s] == es[..s];
    forall k | s < k <= |es| ensures Run(d, es[..k]).workers == Run(d, es[..s + 1]).workers {
      assert es[..n][..s + 1] == es[..s + 1] && es[..|es|] == es && es[..n][..n] == es[..n];
      if k <= n {
        assert es[..n][..k] == es[..k];
      }
    }
  }

  lemma {:induction false} LaterCancel(es: seq<Event>, s: nat)
    requires es != [] && s < |es| - 1
    ensures CancelledSince(es, s) <==> CancelledSince(es[..|es|-1], s) || es[|es|-1] == Cancel
  {
    var n := |es| - 1;
    if CancelledSince(es[..n], s) {
      var c :| s < c < n && es[..n][c] == Cancel;
      assert es[c] == Cancel;
    }
    if CancelledSince(es, s) && es[n] != Cancel {
      var c :| s < c < |es| && es[c] == Cancel;
      assert es[..n][c] == Cancel;
    }
  }

  /** The daemon shows this error. */
  ghost predicate Shows(d: Daemon, error: string) {
    d.state == Error && d.errorName == error
  }

  ghost predicate Found(before: Daemon, after: Daemon, found: Result<Option<Info>>, sizes: Result<()>) {
    match found
    case Failure(error) => Shows(after, error) && SameOffer(before, after)
    case Success(None) => after.state == Ready && after.errorName == "" && SameOffer(before, after)
    case Success(Some(info)) =>
      && OnOffer(after, info)
      && (if sizes.Failure? then Shows(after, sizes.error) else after.state == UpdateAvailable && after.errorName == "")
  }

  ghost predicate Done(before: Daemon, after: Daemon, outcome: Result<()>, next: State) {
    && SameOffer(before, after)
    && (if outcome.Failure? then Shows(after, outcome.error) else after.state == next && after.errorName == "")
  }

  /** This event is the end of the task that runs. */
  ghost predicate EndsTask(d: Daemon, e: Event) {
    d.workers != [] &&
    match e
    case Call(_) => false
    case Cancel => false
    case PollFinished(worker, _, _) => worker == 0 && d.workers[0].job in {PollJob, PollVolumeJob}
    case FetchFinished(worker, _) => worker == 0 && d.workers[0].job == FetchJob
    case ApplyFinished(worker, _) => worker == 0 && d.workers[0].job == ApplyJob
  }

  lemma {:induction false} CancelledEnd(d: Daemon, e: Event)
    requires Good(d) && EndsTask(d, e) && d.workers[0].token in d.cancelled
    ensures Shows(Step(d, e), "com.endlessm.Updater.Error.Cancelled") && SameOffer(d, Step(d, e))
    ensures Step(d, e).workers == []
  {
    OnlyWorkerGone(d, 0);
  }

  lemma {:induction false} PollEnd(d: Daemon, found: Result<Option<Info>>, sizes: Result<()>)
    requires Good(d) && EndsTask(d, PollFinished(0, found, sizes)) && d.workers[0].token !in d.cancelled
    ensures d.state == Polling && Found(d, Step(d, PollFinished(0, found, sizes)), found, sizes)
    ensures Step(d, PollFinished(0, found, sizes)).workers == []
  {
    OnlyWorkerGone(d, 0);
  }

  lemma {:induction false} TaskEnd(d: Daemon, e: Event)
    requires Good(d) && EndsTask(d, e) && d.workers[0].token !in d.cancelled && !e.PollFinished?
    ensures e.FetchFinished? ==> d.state == Fetching && Done(d, Step(d, e), e.fetched, UpdateReady)
    ensures e.ApplyFinished? ==> d.state == ApplyingUpdate && Done(d, Step(d, e), e.applied, UpdateApplied)
    ensures Step(d, e).workers == []
  {
    OnlyWorkerGone(d, 0);
  }

  lemma {:induction false} OtherEvents(d: Daemon, e: Event)
    requires Good(d) && d.workers != [] && !EndsTask(d, e)
    ensures Step(d, e).workers == d.workers
  {
  }

  /** How the task has ended. */
  ghost predicate EndedAs(before: Daemon, after: Daemon, e: Event)
    requires before.workers != []
  {
    if before.workers[0].token in before.cancelled then
      Shows(after, "com.endlessm.Updater.Error.Cancelled") && SameOffer(before, after)
    else
      match e
      case Call(_) => false
      case Cancel => false
      case PollFinished(_, found, sizes) => before.state == Polling && Found(before, after, found, sizes)
      case FetchFinished(_, fetched) => before.state == Fetching && Done(before, after, fetched, UpdateReady)
      case ApplyFinished(_, applied) => before.state == ApplyingUpdate && Done(before, after, applied, UpdateApplied)
  }

  /** In every run a task lives until its own end.  If it was cancelled it then
      ends in the error state whatever it returned, and otherwise as its outcome
      says; only a poll that found an update changes what is on offer. */
  lemma {:induction false} OutcomeOfTask(d: Daemon, es: seq<Event>, e: Event)
    requires Initial(d) && Run(d, es).workers != []
    ensures if EndsTask(Run(d, es), e) then
              Run(d, es + [e]).workers == [] && EndedAs(Run(d, es), Run(d, es + [e]), e)
            else Run(d, es + [e]).workers == Run(d, es).workers
  {
    hide Good, Step, Initial, Found, Done, Shows, SameOffer;
    var before := Run(d, es);
    AlwaysOneWorker(d, es);
    assert (es + [e])[..|es|] == es;
    if !EndsTask(before, e) {
      OtherEvents(before, e);
    } else if before.workers[0].token in before.cancelled {
      CancelledEnd(before, e);
    } else if e.PollFinished? {
      PollEnd(before, e.found, e.sizes);
    } else {
      TaskEnd(before, e);
    }
  }

  // ------------------------------------- what is applied is what was fetched

  /** At p a poll found this update, and nobody has started a poll since. */
  ghost predicate PolledAt(d: Daemon, es: seq<Event>, p: nat, info: Info) {
    && p < |es| && es[p].PollFinished? && Enabled(Run(d, es[..p]), es[p])
    && Delivered(Run(d, es[..p]), es[p].worker, es[p].found) == Success(Some(info)) && es[p].sizes.Success?
    && forall k :: p < k < |es| && es[k].Call? && es[k].job in {PollJob, PollVolumeJob} ==>
                     !Accepts(Run(d, es[..k]).state, es[k].job)
  }

  /** At f a task that was given this update finished fetching it. */
  ghost predicate FetchedAt(d: Daemon, es: seq<Event>, f: nat, info: Info) {
    && f < |es| && es[f].FetchFinished? && Enabled(Run(d, es[..f]), es[f])
    && Delivered(Run(d, es[..f]), es[f].worker, es[f].fetched).Success?
    && Run(d, es[..f]).workers[es[f].worker].id == info.id
    && Run(d, es[..f]).workers[es[f].worker].refspec == info.refspec
    && Run(d, es[..f]).results == info.results && Run(d, es[..f]).offline == info.offline
  }

  /** At a a task that was given this update finished applying it. */
  ghost predicate AppliedAt(d: Daemon, es: seq<Event>, a: nat, info: Info) {
    && a < |es| && es[a].ApplyFinished? && Enabled(Run(d, es[..a]), es[a])
    && Delivered(Run(d, es[..a]), es[a].worker, es[a].applied).Success?
    && Run(d, es[..a]).workers[es[a].worker].id == info.id
    && Run(d, es[..a]).workers[es[a].worker].refspec == info.refspec
    && Run(d, es[..a]).workers[es[a].worker].original == info.original
  }

  predicate Offering(state: State) {
    state in {UpdateAvailable, Fetching, UpdateReady, ApplyingUpdate, UpdateApplied}
  }

  ghost predicate OnOffer(d: Daemon, info: Info) {
    && d.id == info.id && d.refspec == info.refspec && d.original == info.original && d.visible == info.visible
    && d.results == info.results && d.offline == info.offline
  }

  /** Whenever an update is on offer it is the one the most recent poll found,
      with the sources that poll found, and it was fetched after that poll if
      it is ready, and applied after that if it is applied. */
  lemma {:induction false} Provenance(d: Daemon, es: seq<Event>) returns (p: nat, f: nat, a: nat, info: Info)
    requires Initial(d) && Offering(Run(d, es).state)
    ensures PolledAt(d, es, p, info) && OnOffer(Run(d, es), info)
    ensures Run(d, es).state in {UpdateReady, ApplyingUpdate, UpdateApplied} ==> p < f && FetchedAt(d, es, f, info)
    ensures Run(d, es).state == UpdateApplied ==> f < a && AppliedAt(d, es, a, info)
  {
    assert es != [];
    var n := |es| - 1;
    var was := Run(d, es[..n]);
    AlwaysOneWorker(d, es[..n]);
    hide Step, OnOffer, TokensInOrder, OwnCopy;
    if es[n].PollFinished? && Enabled(was, es[n]) {
      info := JustFound(d, es);
      p, f, a := n, n, n;
    } else {
      StillOffering(was, es[n]);
      OneStateAtATime(was, es[n]);
      p, f, a, info := Provenance(d, es[..n]);
      StillPolled(d, es, p, info);
      hide FetchedAt, AppliedAt;
      f := FetchedByNow(d, es, p, f, info);
      a := AppliedByNow(d, es, f, a, info);
    }
  }

  lemma {:induction false} FetchedByNow(d: Daemon, es: seq<Event>, p: nat, f: nat, info: Info) returns (now: nat)
    requires es != [] && Good(Run(d, es[..|es|-1])) && OnOffer(Run(d, es[..|es|-1]), info) && p < |es| - 1
    requires Run(d, es).state in {UpdateReady, ApplyingUpdate, UpdateApplied} ==>
               Run(d, es[..|es|-1]).state in {Fetching, UpdateReady, ApplyingUpdate, UpdateApplied}
    requires Run(d, es[..|es|-1]).state in {UpdateReady, ApplyingUpdate, UpdateApplied} ==>
               p < f && FetchedAt(d, es[..|es|-1], f, info)
    ensures Run(d, es).state in {UpdateReady, ApplyingUpdate, UpdateApplied} ==> p < now && FetchedAt(d, es, now, info)
    ensures Run(d, es[..|es|-1]).state in {UpdateReady, ApplyingUpdate, UpdateApplied} ==> now == f
  {
    now := f;
    var n := |es| - 1;
    var was := Run(d, es[..n]);
    if Run(d, es).state in {UpdateReady, ApplyingUpdate, UpdateApplied} {
      if was.state == Fetching {
        OneStateAtATime(was, es[n]);
        FetchDone(was, es[n]);
        now := n;
      } else {
        StillFetched(d, es, f, info);
      }
    }
  }

  lemma {:induction false} AppliedByNow(d: Daemon, es: seq<Event>, f: nat, a: nat, info: Info) returns (now: nat)
    requires es != [] && Good(Run(d, es[..|es|-1])) && OnOffer(Run(d, es[..|es|-1]), info)
    requires Run(d, es).state == UpdateApplied ==>
               Run(d, es[..|es|-1]).state in {ApplyingUpdate, UpdateApplied} && f < |es| - 1
    requires Run(d, es[..|es|-1]).state == UpdateApplied ==> f < a && AppliedAt(d, es[..|es|-1], a, info)
    ensures Run(d, es).state == UpdateApplied ==> f < now && AppliedAt(d, es, now, info)
  {
    now := a;
    var n := |es| - 1;
    var was := Run(d, es[..n]);
    if Run(d, es).state == UpdateApplied {
      if was.state == ApplyingUpdate {
        ApplyDone(was, es[n]);
        now := n;
      } else {
        StillApplied(d, es, a, info);
      }
    }
  }

  lemma {:induction false} JustFound(d: Daemon, es: seq<Event>) returns (info: Info)
    requires es != [] && es[|es|-1].PollFinished? && Enabled(Run(d, es[..|es|-1]), es[|es|-1])
    requires Offering(Run(d, es).state)
    ensures PolledAt(d, es, |es| - 1, info) && OnOffer(Run(d, es), info) && Run(d, es).state == UpdateAvailable
  {
    var was, e := Run(d, es[..|es|-1]), es[|es|-1];
    info := Delivered(was, e.worker, e.found).value.value;
  }

  /** Short of a poll finishing, an update stays on offer only unchanged. */
  lemma {:induction false} StillOffering(d: Daemon, e: Event)
    requires Good(d) && Offering(Step(d, e).state) && !(e.PollFinished? && Enabled(d, e))
    ensures Offering(d.state) && forall info :: OnOffer(d, info) ==> OnOffer(Step(d, e), info)
    ensures e.Call? && e.job in {PollJob, PollVolumeJob} ==> !Accepts(d.state, e.job)
  {
    OfferKept(d, e);
    hide OnOffer, TokensInOrder, OwnCopy;
  }

  lemma {:induction false} OfferKept(d: Daemon, e: Event)
    requires !(e.PollFinished? && Enabled(d, e))
    ensures forall info :: OnOffer(d, info) ==> OnOffer(Step(d, e), info)
  {
  }

  /** The states on the way to applying an update are passed one by one. */
  lemma {:induction false} OneStateAtATime(d: Daemon, e: Event)
    requires OneWorker(d)
    ensures Step(d, e).state == UpdateApplied ==> d.state in {ApplyingUpdate, UpdateApplied}
    ensures Step(d, e).state == ApplyingUpdate ==> d.state in {UpdateReady, ApplyingUpdate}
    ensures Step(d, e).state == UpdateReady ==> d.state in {Fetching, UpdateReady}
  {
  }

  lemma {:induction false} FetchDone(d: Daemon, e: Event)
    requires Good(d) && d.state == Fetching && Step(d, e).state == UpdateReady
    ensures e.FetchFinished? && Enabled(d, e) && Delivered(d, e.worker, e.fetched).Success?
    ensures d.workers[e.worker].id == d.id && d.workers[e.worker].refspec == d.refspec
  {
  }

  lemma {:induction false} ApplyDone(d: Daemon, e: Event)
    requires Good(d) && d.state == ApplyingUpdate && Step(d, e).state == UpdateApplied
    ensures e.ApplyFinished? && Enabled(d, e) && Delivered(d, e.worker, e.applied).Success?
    ensures d.workers[e.worker] == NewWorker(d, ApplyJob, d.workers[e.worker].token)
  {
  }

  lemma {:induction false} StillPolled(d: Daemon, es: seq<Event>, p: nat, info: Info)
    requires es != [] && PolledAt(d, es[..|es|-1], p, info)
    requires es[|es|-1].Call? && es[|es|-1].job in {PollJob, PollVolumeJob} ==>
               !Accepts(Run(d, es[..|es|-1]).state, es[|es|-1].job)
    ensures PolledAt(d, es, p, info)
  {
    var n := |es| - 1;
    assert es[..n][..p] == es[..p] && es[..n][p] == es[p];
    forall k | p < k < |es| && es[k].Call? && es[k].job in {PollJob, PollVolumeJob}
      ensures !Accepts(Run(d, es[..k]).state, es[k].job)
    {
      if k < n {
        assert es[..n][..k] == es[..k] && es[..n][k] == es[k];
      }
    }
  }

  lemma {:induction false} StillFetched(d: Daemon, es: seq<Event>, f: nat, info: Info)
    requires es != [] && FetchedAt(d, es[..|es|-1], f, info)
    ensures FetchedAt(d, es, f, info)
  {
    assert es[..|es|-1][..f] == es[..f] && es[..|es|-1][f] == es[f];
  }

  lemma {:induction false} StillApplied(d: Daemon, es: seq<Event>, a: nat, info: Info)
    requires es != [] && AppliedAt(d, es[..|es|-1], a, info)
    ensures AppliedAt(d, es, a, info)
  {
    assert es[..|es|-1][..a] == es[..a] && es[..|es|-1][a] == es[a];
  }

  /** What has been applied was found by the most recent poll, fetched after it
      and only then applied. */
  lemma {:induction false} AppliedWasPolledAndFetched(d: Daemon, es: seq<Event>)
    requires Initial(d) && Run(d, es).state == UpdateApplied
    ensures exists p: nat, f: nat, a: nat, info ::
              && PolledAt(d, es, p, info) && FetchedAt(d, es, f, info) && AppliedAt(d, es, a, info)
              && p < f < a && OnOffer(Run(d, es), info)
  {
    var p, f, a, info := Provenance(d, es);
  }

  /** Whenever Fetch is accepted, the shared results and the offline flag are
      those of the update on offer. */
  lemma {:induction false} FetchUsesItsOwnResults(d: Daemon, es: seq<Event>)
    requires Initial(d) && Accepts(Run(d, es).state, FetchJob)
    ensures exists p: nat, info :: PolledAt(d, es, p, info) && OnOffer(Run(d, es), info)
  {
    var p, f, a, info := Provenance(d, es);
  }
}
