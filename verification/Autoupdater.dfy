// The automatic updater: it reacts to each change of the daemon's state with
// at most one call, and keeps the date at which the offered update last
// changed in a file.

module Autoupdater {
  import opened Common
  import opened Protocol

  type Int64 = x: int | -0x8000_0000_0000_0000 <= x < 0x8000_0000_0000_0000

  datatype UpdateStep = StepNone | StepPoll | StepFetch | StepApply

  function Number(step: UpdateStep): nat {
    match step
    case StepNone => 0
    case StepPoll => 1
    case StepFetch => 2
    case StepApply => 3
  }

  function StepOf(job: Job): UpdateStep {
    match job
    case PollJob => StepPoll
    case PollVolumeJob => StepPoll
    case FetchJob => StepFetch
    case ApplyJob => StepApply
  }

  datatype Config = Config(last: UpdateStep, forceUpdate: bool, delay: Uint64, fromVolume: bool)

  datatype PollResults = PollResults(changed: Uint64, refspec: string, id: string)

  datatype Auto = Auto(polled: bool, previous: State, results: Option<PollResults>, failed: bool, quit: bool)

  const FRESH: Auto := Auto(false, NoState, None, false, false)

  /** What happens around one reaction: the time when the poll results are
      noted, the time when the delay is checked, and whether the file can be
      read and written. */
  datatype Moment = Moment(noted: Int64, checked: Int64, readable: bool, writable: bool)

  datatype Reaction = Reaction(auto: Auto, stored: Option<PollResults>, call: Option<Job>)

  // --------------------------------------------------------------- reactions

  function SinceEpoch(time: Int64): Uint64 {
    if time < 0 then 0 else time
  }

  function ResultsNow(proxy: Daemon, moment: Moment): PollResults {
    PollResults(SinceEpoch(moment.noted), proxy.refspec, proxy.id)
  }

  predicate SamePair(a: PollResults, b: PollResults) {
    a.refspec == b.refspec && a.id == b.id
  }

  predicate Differs(stored: Option<PollResults>, results: PollResults) {
    stored.None? || !SamePair(stored.value, results)
  }

  /** A file that cannot be read, or is corrupted, counts as missing. */
  function Known(stored: Option<PollResults>, moment: Moment): Option<PollResults> {
    if moment.readable then stored else None
  }

  function SaturatedSum(a: Uint64, b: Uint64): Uint64 {
    if a + b > MAX_UINT64 then MAX_UINT64 else a + b
  }

  function WithPollResults(r: Reaction, proxy: Daemon, moment: Moment): Reaction {
    var now := ResultsNow(proxy, moment);
    if Differs(Known(r.stored, moment), now) then
      Reaction(r.auto.(results := Some(now)), if moment.writable then Some(now) else r.stored, r.call)
    else
      r.(auto := r.auto.(results := r.stored))
  }

  predicate TooEarly(config: Config, auto: Auto, proxy: Daemon, moment: Moment)
    requires auto.results.Some?
  {
    && !config.forceUpdate && proxy.visible
    && SinceEpoch(moment.checked) < SaturatedSum(auto.results.value.changed, config.delay)
  }

  function Quitting(r: Reaction): Reaction {
    r.(auto := r.auto.(quit := true))
  }

  function WithStep(config: Config, r: Reaction, step: UpdateStep, proxy: Daemon, moment: Moment): Reaction
    requires step != StepNone && (step == StepApply ==> r.auto.results.Some?)
  {
    if Number(step) > Number(config.last) then Quitting(r) else
    match step
    case StepPoll =>
      if r.auto.polled then Quitting(r) else
      Reaction(r.auto.(polled := true, results := None), r.stored,
               Some(if config.fromVolume then PollVolumeJob else PollJob))
    case StepFetch => r.(call := Some(FetchJob))
    case StepApply => if TooEarly(config, r.auto, proxy, moment) then Quitting(r) else r.(call := Some(ApplyJob))
  }

  function WithAnyResults(r: Reaction, proxy: Daemon, moment: Moment): (r': Reaction)
    ensures r'.auto.results.Some?
  {
    if r.auto.results.None? then WithPollResults(r, proxy, moment) else r
  }

  /** What the new state calls for. */
  function Dispatched(config: Config, r: Reaction, proxy: Daemon, state: State, moment: Moment): Reaction {
    match state
    case NoState => r
    case Ready => WithStep(config, r, StepPoll, proxy, moment)
    case Error => Quitting(r.(auto := r.auto.(failed := true)))
    case Polling => r
    case UpdateAvailable => WithStep(config, WithAnyResults(r, proxy, moment), StepFetch, proxy, moment)
    case Fetching => r
    case UpdateReady => WithStep(config, WithAnyResults(r, proxy, moment), StepApply, proxy, moment)
    case ApplyingUpdate => r
    case UpdateApplied => Quitting(r)
  }

  function StateChanged(config: Config, auto: Auto, stored: Option<PollResults>, proxy: Daemon, state: State,
                        moment: Moment): Reaction
  {
    var start := Reaction(auto, stored, None);
    if state == auto.previous then start else
    var noted := if auto.previous == Polling then WithPollResults(start, proxy, moment) else start;
    Dispatched(config, noted.(auto := noted.auto.(previous := state)), proxy, state, moment)
  }

  predicate NotesResults(auto: Auto, state: State) {
    state != auto.previous
    && (auto.previous == Polling || (state in {UpdateAvailable, UpdateReady} && auto.results.None?))
  }

  /** The first reaction pretends that an error is over. */
  function FirstState(proxy: Daemon): State {
    if proxy.state == Error then Ready else proxy.state
  }

  /** A call is made only in the state it is for, never past the configured last
      step, and a poll only once. */
  lemma {:induction false} CallFitsState(config: Config, auto: Auto, stored: Option<PollResults>, proxy: Daemon,
                                         state: State, moment: Moment)
    requires !auto.quit
    ensures (var r := StateChanged(config, auto, stored, proxy, state, moment);
             && (r.call.None? ==> r.auto.polled == auto.polled)
             && (r.call.Some? ==>
                   && state != auto.previous && !r.auto.quit
                   && Number(StepOf(r.call.value)) <= Number(config.last)
                   && state == (match StepOf(r.call.value)
                                case StepNone => NoState
                                case StepPoll => Ready
                                case StepFetch => UpdateAvailable
                                case StepApply => UpdateReady)
                   && (StepOf(r.call.value) == StepPoll ==> !auto.polled && r.auto.polled && r.auto.results.None?)
                   && (StepOf(r.call.value) != StepPoll ==> r.auto.polled == auto.polled)))
  {
  }

  /** Having looked at a new state, the updater remembers it; it goes on only if
      it then waits for a task or has made the call the state is for. */
  lemma {:induction false} GoesOnOnlyWithCall(config: Config, auto: Auto, stored: Option<PollResults>, proxy: Daemon,
                                              state: State, moment: Moment)
    requires !auto.quit
    ensures (var r := StateChanged(config, auto, stored, proxy, state, moment);
             && r.auto.previous == state
             && (state != auto.previous && !r.auto.quit ==>
                   && state !in {Error, UpdateApplied}
                   && (state in {Ready, UpdateAvailable, UpdateReady} ==> r.call.Some?)))
  {
  }

  /** When a reaction to a new state ends the run. */
  lemma {:induction false} QuitsAtStep(config: Config, auto: Auto, stored: Option<PollResults>, proxy: Daemon,
                                       state: State, moment: Moment)
    requires !auto.quit && state != auto.previous
    ensures (var r := StateChanged(config, auto, stored, proxy, state, moment);
             && (r.auto.polled || state != Ready || config.last == StepNone)
             && (r.auto.failed == (auto.failed || state == Error))
             && (state == Ready ==> (r.auto.quit <==> auto.polled || config.last == StepNone))
             && (state == UpdateAvailable ==> (r.auto.quit <==> Number(config.last) < Number(StepFetch)))
             && (state == UpdateReady ==>
                   (r.auto.quit <==> config.last != StepApply || TooEarly(config, r.auto, proxy, moment)))
             && (state in {Error, UpdateApplied} ==> r.auto.quit)
             && (state in {NoState, Polling, Fetching, ApplyingUpdate} ==> !r.auto.quit))
  {
  }

  lemma {:induction false} PollsVolumeIff(config: Config, auto: Auto, stored: Option<PollResults>, proxy: Daemon,
                                          state: State, moment: Moment)
    requires !auto.quit
    ensures (var r := StateChanged(config, auto, stored, proxy, state, moment);
             && (r.call == Some(PollJob) ==> !config.fromVolume)
             && (r.call == Some(PollVolumeJob) ==> config.fromVolume))
  {
  }

  lemma {:induction false} DispatchFails(config: Config, r: Reaction, proxy: Daemon, state: State, moment: Moment)
    ensures (var end := Dispatched(config, r, proxy, state, moment);
             && end.auto.previous == r.auto.previous && end.auto.failed == (r.auto.failed || state == Error)
             && (state == Error ==> end.auto.quit))
  {
  }

  lemma {:induction false} FailureOnError(config: Config, auto: Auto, stored: Option<PollResults>, proxy: Daemon,
                                          state: State, moment: Moment)
    ensures (var r := StateChanged(config, auto, stored, proxy, state, moment);
             && r.auto.previous == state
             && r.auto.failed == (auto.failed || (state != auto.previous && state == Error))
             && (state != auto.previous && state == Error ==> r.auto.quit))
  {
    if state != auto.previous {
      var start := Reaction(auto, stored, None);
      var noted := if auto.previous == Polling then WithPollResults(start, proxy, moment) else start;
      DispatchFails(config, noted.(auto := noted.auto.(previous := state)), proxy, state, moment);
    }
  }

  lemma {:induction false} NothingNoted(config: Config, auto: Auto, stored: Option<PollResults>, proxy: Daemon,
                                        state: State, moment: Moment)
    requires !NotesResults(auto, state)
    ensures (var r := StateChanged(config, auto, stored, proxy, state, moment);
             r.stored == stored && (r.auto.results.None? || r.auto.results == auto.results))
  {
  }

  lemma {:induction false} SomethingNoted(config: Config, auto: Auto, stored: Option<PollResults>, proxy: Daemon,
                                          state: State, moment: Moment)
    requires NotesResults(auto, state)
    ensures (var r := StateChanged(config, auto, stored, proxy, state, moment);
             var now := ResultsNow(proxy, moment);
             && r.stored == (if Differs(Known(stored, moment), now) && moment.writable then Some(now) else stored)
             && (r.auto.results.Some? ==>
                   r.auto.results == if Differs(Known(stored, moment), now) then Some(now) else stored)
             && (r.auto.results.Some? && !r.auto.quit ==> state !in {Polling, Ready}))
  {
  }

  /** In memory and in the file there is what was noted, if anything was. */
  lemma {:induction false} ResultsNoted(config: Config, auto: Auto, stored: Option<PollResults>, proxy: Daemon,
                                        state: State, moment: Moment)
    ensures (var r := StateChanged(config, auto, stored, proxy, state, moment);
             var now := ResultsNow(proxy, moment);
             && (!NotesResults(auto, state) ==>
                   r.stored == stored && (r.auto.results.None? || r.auto.results == auto.results))
             && (NotesResults(auto, state) ==>
                   && r.stored == (if Differs(Known(stored, moment), now) && moment.writable then Some(now) else stored)
                   && (r.auto.results.Some? ==>
                         r.auto.results == if Differs(Known(stored, moment), now) then Some(now) else stored)
                   && (r.auto.results.Some? && !r.auto.quit ==> state !in {Polling, Ready})))
  {
    hide StateChanged, Known, Differs;
    if NotesResults(auto, state) {
      SomethingNoted(config, auto, stored, proxy, state, moment);
    } else {
      NothingNoted(config, auto, stored, proxy, state, moment);
    }
  }

  lemma {:induction false} InMemory(config: Config, auto: Auto, stored: Option<PollResults>, proxy: Daemon,
                                    state: State, moment: Moment)
    requires !auto.quit && state != auto.previous
    ensures (var r := StateChanged(config, auto, stored, proxy, state, moment);
             var now := ResultsNow(proxy, moment);
             !r.auto.quit ==>
               r.auto.results == if r.call in {Some(PollJob), Some(PollVolumeJob)} then None
                                 else if !NotesResults(auto, state) then auto.results
                                 else if Differs(Known(stored, moment), now) then Some(now) else stored)
  {
  }

  /** At a ready update, the call depends on the delay alone. */
  lemma {:induction false} ReadyReaction(config: Config, auto: Auto, stored: Option<PollResults>, proxy: Daemon,
                                         moment: Moment)
    requires auto.previous != UpdateReady && !auto.quit && config.last == StepApply
    ensures (var r := StateChanged(config, auto, stored, proxy, UpdateReady, moment);
             && r.auto.results.Some?
             && (r.call == Some(ApplyJob) <==> !TooEarly(config, r.auto, proxy, moment))
             && (!NotesResults(auto, UpdateReady) ==> r.auto.results == auto.results))
  {
  }

  // ---------------------------------------------------------- implementation

  /** The program's global variables, and its results file. */
  class Agent {
    const config: Config
    var polledAlready: bool
    var previousState: State
    var pollResults: Option<PollResults>
    var shouldExitFailure: bool
    var quit: bool
    var file: Option<PollResults>

    constructor (config: Config, file: Option<PollResults>)
      ensures this.config == config && this.file == file && View() == FRESH
    {
      this.config, this.file := config, file;
      polledAlready, previousState, pollResults, shouldExitFailure, quit := false, NoState, None, false, false;
    }

    ghost function View(): Auto
      reads this
    {
      Auto(polledAlready, previousState, pollResults, shouldExitFailure, quit)
    }

    method UpdatePollResults(proxy: Daemon, moment: Moment)
      modifies this`pollResults, this`file
      ensures Reaction(View(), file, None) == WithPollResults(Reaction(old(View()), old(file), None), proxy, moment)
    {
      var oldResults: Option<PollResults> := None;
      if moment.readable {
        oldResults := file;
      }
      var newResults := ResultsNow(proxy, moment);
      if oldResults.None? || oldResults.value.refspec != newResults.refspec || oldResults.value.id != newResults.id {
        if moment.writable {
          file := Some(newResults);
        }
        pollResults := Some(newResults);
      } else {
        pollResults := oldResults;
      }
    }

    method DoUpdateStep(step: UpdateStep, proxy: Daemon, moment: Moment) returns (keepRunning: bool, call: Option<Job>)
      requires step != StepNone && (step == StepApply ==> pollResults.Some?)
      modifies this`polledAlready, this`pollResults
      ensures (var after := WithStep(config, Reaction(old(View()), file, None), step, proxy, moment);
               && call == after.call
               && View().(quit := quit || !keepRunning) == after.auto
               && (keepRunning ==> call.Some?))
    {
      if Number(step) > Number(config.last) {
        return false, None;
      }
      match step {
        case StepPoll =>
          if polledAlready {
            return false, None;
          }
          pollResults := None;
          polledAlready := true;
          if config.fromVolume {
            return true, Some(PollVolumeJob);
          }
          return true, Some(PollJob);
        case StepFetch =>
          return true, Some(FetchJob);
        case StepApply =>
          if !config.forceUpdate && proxy.visible {
            var now := if moment.checked < 0 then 0 else moment.checked;
            var nextUpdate := pollResults.value.changed + config.delay;
            if nextUpdate > MAX_UINT64 {
              nextUpdate := MAX_UINT64;
            }
            if now < nextUpdate {
              return false, None;
            }
          }
          return true, Some(ApplyJob);
      }
    }

    method OnStateChanged(proxy: Daemon, state: State, moment: Moment) returns (call: Option<Job>)
      modifies this
      ensures Reaction(View(), file, call) == StateChanged(config, old(View()), old(file), proxy, state, moment)
    {
      if state == previousState {
        return None;
      }
      if previousState == Polling {
        UpdatePollResults(proxy, moment);
      }
      previousState := state;
      call := Dispatch(proxy, state, moment);
    }

    /** The second half of the handler: acts on the new state. */
    method Dispatch(proxy: Daemon, state: State, moment: Moment) returns (call: Option<Job>)
      modifies this
      ensures Reaction(View(), file, call)
           == Dispatched(config, Reaction(old(View()), old(file), None), proxy, state, moment)
    {
      var keepRunning := true;
      call := None;
      match state {
        case NoState =>
        case Ready =>
          keepRunning, call := DoUpdateStep(StepPoll, proxy, moment);
        case Error =>
          shouldExitFailure, keepRunning := true, false;
        case Polling =>
        case UpdateAvailable =>
          if pollResults.None? {
            UpdatePollResults(proxy, moment);
          }
          keepRunning, call := DoUpdateStep(StepFetch, proxy, moment);
        case Fetching =>
        case UpdateReady =>
          if pollResults.None? {
            UpdatePollResults(proxy, moment);
          }
          keepRunning, call := DoUpdateStep(StepApply, proxy, moment);
        case ApplyingUpdate =>
        case UpdateApplied =>
          keepRunning := false;
      }
      if !keepRunning {
        quit := true;
      }
    }

    method InitialPollIdleFunc(proxy: Daemon, moment: Moment) returns (call: Option<Job>)
      modifies this
      ensures Reaction(View(), file, call)
           == StateChanged(config, old(View()), old(file), proxy, FirstState(proxy), moment)
    {
      var initialState := proxy.state;
      if initialState == Error {
        initialState := Ready;
      }
      call := OnStateChanged(proxy, initialState, moment);
    }
  }
}
