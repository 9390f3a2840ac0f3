// The daemon's objects, updated in place by the D-Bus handlers and by the
// completion callbacks, each proved to take one step of Protocol.

module Service {
  import opened Common
  import opened Protocol

  class Cancellable {
    ghost const serial: nat
    var cancelled: bool

    constructor (ghost serial: nat)
      ensures this.serial == serial && !cancelled
    {
      this.serial, cancelled := serial, false;
    }

    method Cancel()
      modifies this
      ensures cancelled
    {
      cancelled := true;
    }
  }

  /** What a worker thread was started with. */
  class Task {
    const job: Job
    const cancellable: Cancellable
    const id: string
    const refspec: string
    const original: string

    constructor (job: Job, cancellable: Cancellable, id: string, refspec: string, original: string)
      ensures this.job == job && this.cancellable == cancellable
      ensures this.id == id && this.refspec == refspec && this.original == original
    {
      this.job, this.cancellable, this.id, this.refspec, this.original := job, cancellable, id, refspec, original;
    }

    ghost function AsWorker(): Worker {
      Worker(job, cancellable.serial, id, refspec, original)
    }

    /** What propagating the task's result gives. */
    method Propagate<T>(outcome: Result<T>) returns (delivered: Result<T>)
      ensures delivered == if cancellable.cancelled then Failure(CANCELLED) else outcome
    {
      delivered := if cancellable.cancelled then Failure(CANCELLED) else outcome;
    }
  }

  /** The exported object's properties. */
  class Updater {
    var state: State
    var errorName: string
    var updateId: string
    var updateRefspec: string
    var originalRefspec: string
    var updateIsUserVisible: bool

    constructor (booted: Result<()>)
      ensures state == (if booted.Success? then Ready else Error)
      ensures errorName == (if booted.Success? then "" else booted.error)
      ensures updateId == "" && updateRefspec == "" && originalRefspec == ""
    {
      updateIsUserVisible := false;
      updateId, updateRefspec, originalRefspec := "", "", "";
      state := if booted.Success? then Ready else Error;
      errorName := if booted.Success? then "" else booted.error;
    }

    method SetError(error: ErrorName)
      modifies this`state, this`errorName
      ensures state == Error && errorName == error
    {
      errorName := error;
      state := Error;
    }

    method ClearError(state: State)
      modifies this`state, this`errorName
      ensures this.state == state && errorName == ""
    {
      errorName := "";
      this.state := state;
    }
  }

  /** What the stages of an update share. */
  class UpdaterData {
    var results: seq<string>
    var offlineResultsOnly: bool
    var cancellable: Cancellable

    constructor ()
      ensures results == [] && !offlineResultsOnly
      ensures fresh(cancellable) && cancellable.serial == 0 && !cancellable.cancelled
    {
      results, offlineResultsOnly := [], false;
      cancellable := new Cancellable(0);
    }
  }

  class UpdaterService {
    const updater: Updater
    const data: UpdaterData

    /** The tasks whose completion the main loop has not handled yet. */
    var tasks: seq<Task>

    ghost var tokens: seq<Cancellable>

    constructor (booted: Result<()>)
      ensures Valid() && Initial(View())
      ensures fresh(updater) && fresh(data) && fresh(tokens)
      ensures View().state == if booted.Success? then Ready else Error
    {
      updater := new Updater(booted);
      var shared := new UpdaterData();
      data := shared;
      tasks, tokens := [], [shared.cancellable];
    }

    ghost predicate Valid()
      reads this, data
    {
      && (forall i :: 0 <= i < |tokens| ==> tokens[i].serial == i)
      && data.cancellable in tokens
      && (forall t :: t in tasks ==> t.cancellable in tokens)
    }

    ghost function Cancelled(): (s: set<nat>)
      reads this, tokens
      ensures forall i :: i in s <==> 0 <= i < |tokens| && tokens[i].cancelled
    {
      set i: nat | 0 <= i < |tokens| && tokens[i].cancelled
    }

    ghost function Workers(): (ws: seq<Worker>)
      reads this
      ensures |ws| == |tasks| && forall i :: 0 <= i < |ws| ==> ws[i] == tasks[i].AsWorker()
    {
      seq(|tasks|, i requires 0 <= i < |tasks| reads this => tasks[i].AsWorker())
    }

    ghost function View(): Daemon
      reads this, updater, data, tokens
    {
      Daemon(updater.state, updater.errorName, updater.updateId, updater.updateRefspec, updater.originalRefspec,
             updater.updateIsUserVisible, data.results, data.offlineResultsOnly,
             data.cancellable.serial, Cancelled(), |tokens|, Workers())
    }

    method ResetCancellable()
      requires Valid()
      modifies data`cancellable, this`tokens
      ensures Valid() && View() == WithFreshToken(old(View()))
      ensures old(tokens) <= tokens && forall t :: t in tokens ==> t in old(tokens) || fresh(t)
    {
      if !data.cancellable.cancelled {
        return;
      }
      data.cancellable := new Cancellable(|tokens|);
      tokens := tokens + [data.cancellable];
    }

    /** Moves to the busy state and runs the task with the current cancellable. */
    method StartTask(job: Job, id: string, refspec: string, original: string)
      requires Valid()
      requires NewWorker(View(), job, 0) == Worker(job, 0, id, refspec, original)
      modifies updater`state, updater`errorName, data`cancellable, this
      ensures Valid() && View() == Started(old(View()), job)
      ensures old(tokens) <= tokens && forall t :: t in tokens ==> t in old(tokens) || fresh(t)
    {
      ResetCancellable();
      updater.ClearError(StateOf(job));
      var task := new Task(job, data.cancellable, id, refspec, original);
      tasks := tasks + [task];
    }

    method HandlePoll() returns (ok: bool)
      requires Valid()
      modifies updater`state, updater`errorName, data`cancellable, this
      ensures Valid() && View() == Step(old(View()), Call(PollJob))
      ensures ok == Accepts(old(updater.state), PollJob)
    {
      match updater.state {
        case Ready | UpdateAvailable | UpdateReady | Error =>
        case _ => return false;
      }
      StartTask(PollJob, "", "", "");
      return true;
    }

    method HandlePollVolume() returns (ok: bool)
      requires Valid()
      modifies updater`state, updater`errorName, data`cancellable, this
      ensures Valid() && View() == Step(old(View()), Call(PollVolumeJob))
      ensures ok == Accepts(old(updater.state), PollVolumeJob)
    {
      match updater.state {
        case Ready | UpdateAvailable | UpdateReady | Error =>
        case _ => return false;
      }
      StartTask(PollVolumeJob, "", "", "");
      return true;
    }

    method HandleFetchFull() returns (ok: bool)
      requires Valid()
      modifies updater`state, updater`errorName, data`cancellable, this
      ensures Valid() && View() == Step(old(View()), Call(FetchJob))
      ensures ok == Accepts(old(updater.state), FetchJob)
    {
      if updater.state != UpdateAvailable {
        return false;
      }
      StartTask(FetchJob, updater.updateId, updater.updateRefspec, "");
      return true;
    }

    method HandleApply() returns (ok: bool)
      requires Valid()
      modifies updater`state, updater`errorName, data`cancellable, this
      ensures Valid() && View() == Step(old(View()), Call(ApplyJob))
      ensures ok == Accepts(old(updater.state), ApplyJob)
    {
      if updater.state != UpdateReady {
        return false;
      }
      StartTask(ApplyJob, updater.updateId, updater.updateRefspec, updater.originalRefspec);
      return true;
    }

    method HandleCancel() returns (ok: bool)
      requires Valid()
      modifies data`cancellable, data.cancellable, this`tokens
      ensures Valid() && View() == Step(old(View()), Cancel)
      ensures ok == AcceptsCancel(old(updater.state))
    {
      match updater.state {
        case Polling | Fetching | ApplyingUpdate =>
        case _ => return false;
      }
      data.cancellable.Cancel();
      assert Cancelled() == old(Cancelled()) + {data.cancellable.serial};
      assert View() == old(View()).(cancelled := old(View()).cancelled + {old(View()).token});
      ResetCancellable();
      return true;
    }

    /** Takes a finished task off the list. */
    method TakeTask(i: nat) returns (task: Task)
      requires Valid() && i < |tasks|
      modifies this`tasks
      ensures Valid() && task == old(tasks[i])
      ensures View() == Without(old(View()), i)
      ensures task.cancellable.cancelled <==> old(View()).workers[i].token in old(View()).cancelled
    {
      task := tasks[i];
      assert task.cancellable in tokens;
      tasks := tasks[..i] + tasks[i + 1..];
    }

    /** Shares what the poll found and offers it. */
    method Offer(info: Info)
      requires Valid()
      modifies updater, data`results, data`offlineResultsOnly
      ensures Valid() && View() == WithInfo(WithoutError(old(View()), UpdateAvailable), info)
    {
      data.results := info.results;
      data.offlineResultsOnly := info.offline;
      updater.ClearError(UpdateAvailable);
      updater.updateId := info.id;
      updater.updateRefspec := info.refspec;
      updater.originalRefspec := info.original;
      updater.updateIsUserVisible := info.visible;
      assert Cancelled() == old(Cancelled());
      assert Workers() == old(Workers());
    }

    /** The rest of the callback, once the result is known. */
    method ConcludePoll(found: Result<Option<Info>>, sizes: Result<()>)
      requires Valid()
      modifies updater, data`results, data`offlineResultsOnly
      ensures Valid() && View() == PollEnded(old(View()), found, sizes)
    {
      if found.Success? && found.value.Some? {
        Offer(found.value.value);
        if sizes.Failure? {
          updater.SetError(sizes.error);
        }
      } else {
        updater.ClearError(Ready);
        if found.Failure? {
          updater.SetError(found.error);
        }
      }
    }

    method MetadataFetchFinished(i: nat, found: Result<Option<Info>>, sizes: Result<()>)
      requires Valid() && Enabled(View(), PollFinished(i, found, sizes))
      modifies this`tasks, updater, data`results, data`offlineResultsOnly
      ensures Valid() && View() == Step(old(View()), PollFinished(i, found, sizes))
    {
      var task := TakeTask(i);
      var delivered := task.Propagate(found);
      ConcludePoll(delivered, sizes);
    }

    method ContentFetchFinished(i: nat, fetched: Result<()>)
      requires Valid() && Enabled(View(), FetchFinished(i, fetched))
      modifies this`tasks, updater
      ensures Valid() && View() == Step(old(View()), FetchFinished(i, fetched))
    {
      var task := TakeTask(i);
      var delivered := task.Propagate(fetched);
      if delivered.Failure? {
        updater.SetError(delivered.error);
      } else {
        updater.ClearError(UpdateReady);
      }
    }

    method ApplyTaskFinished(i: nat, applied: Result<()>)
      requires Valid() && Enabled(View(), ApplyFinished(i, applied))
      modifies this`tasks, updater
      ensures Valid() && View() == Step(old(View()), ApplyFinished(i, applied))
    {
      var task := TakeTask(i);
      var delivered := task.Propagate(applied);
      if delivered.Failure? {
        updater.SetError(delivered.error);
      } else {
        updater.ClearError(UpdateApplied);
      }
    }
  }
}
