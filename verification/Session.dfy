// The automatic updater together with the daemon it drives, over any number of
// its runs: calls and change notifications may be under way for any time.

module Session {
  import opened Common
  import opened Protocol
  import opened Autoupdater
  import opened StoredResults

  /** proxy is the updater's copy of the daemon's properties; signals are the
      notifications it has yet to handle, each with the properties as they were
      when it was sent; pending is a call on its way to the daemon; calls are
      those of the current run, and notes all that were ever made. */
  datatype Session = Session(daemon: Daemon, proxy: Daemon, signals: seq<Daemon>,
                             auto: Auto, started: bool, pending: Option<Job>, calls: seq<Job>,
                             stored: Option<PollResults>, notes: seq<Note>)

  datatype Happening =
    | Begin(moment: Moment)
    | Hear(moment: Moment)
    | Deliver
    | Finish(event: Event)
    | Restart(daemon: Daemon)

  /** The main loop calls the idle function once, maybe only after the first
      notifications; a new run finds the daemon in any state it may be in. */
  ghost predicate Possible(s: Session, h: Happening) {
    match h
    case Begin(_) => !s.auto.quit && !s.started
    case Hear(_) => !s.auto.quit && s.signals != []
    case Deliver => s.pending.Some?
    case Finish(e) => !e.Call? && !e.Cancel? && Enabled(s.daemon, e)
    case Restart(d) => s.auto.quit && Good(d)
  }

  function NoteNow(proxy: Daemon, moment: Moment): Note {
    Note(ResultsNow(proxy, moment), moment.readable, moment.writable)
  }

  /** The updater reacts to a state, with its proxy as it is. */
  function Reacted(config: Config, s: Session, state: State, moment: Moment): Session {
    var r := StateChanged(config, s.auto, s.stored, s.proxy, state, moment);
    s.(auto := r.auto, stored := r.stored,
       pending := if r.call.Some? then r.call else s.pending,
       calls := if r.call.Some? then s.calls + [r.call.value] else s.calls,
       notes := if NotesResults(s.auto, state) then s.notes + [NoteNow(s.proxy, moment)] else s.notes)
  }

  function Begun(config: Config, s: Session, moment: Moment): Session {
    Reacted(config, s.(started := true), FirstState(s.proxy), moment)
  }

  function Notified(s: Session): Session
    requires s.signals != []
  {
    s.(proxy := s.signals[0], signals := s.signals[1..])
  }

  function Heard(config: Config, s: Session, moment: Moment): Session
    requires s.signals != []
  {
    Reacted(config, Notified(s), Notified(s).proxy.state, moment)
  }

  /** The daemon changes, and notifies the updater. */
  function Moved(s: Session, d: Daemon): Session {
    s.(daemon := d, signals := s.signals + [d])
  }

  function CallArrived(s: Session): Session
    requires s.pending.Some?
  {
    if Accepts(s.daemon.state, s.pending.value) then
      Moved(s, Step(s.daemon, Call(s.pending.value))).(pending := None)
    else
      s.(pending := None, auto := s.auto.(failed := true, quit := true))
  }

  function StartedAnew(s: Session, d: Daemon): Session {
    s.(daemon := d, proxy := d, signals := [], auto := FRESH, started := false, pending := None, calls := [])
  }

  ghost function Next(config: Config, s: Session, h: Happening): Session {
    if !Possible(s, h) then s else
    match h
    case Begin(moment) => Begun(config, s, moment)
    case Hear(moment) => Heard(config, s, moment)
    case Deliver => CallArrived(s)
    case Finish(e) => Moved(s, Step(s.daemon, e))
    case Restart(d) => StartedAnew(s, d)
  }

  ghost function History(config: Config, s: Session, hs: seq<Happening>): Session {
    if hs == [] then s else Next(config, History(config, s, hs[..|hs|-1]), hs[|hs|-1])
  }

  ghost predicate Beginning(s: Session) {
    Good(s.daemon) && s == StartedAnew(s, s.daemon) && s.stored == StoredBy(s.notes)
  }

  // -------------------------------------------------------- the notifications

  /** The state in which the updater makes a call. */
  predicate CallIsFor(state: State, job: Job) {
    match job
    case PollJob => state in {Ready, Error}
    case PollVolumeJob => state in {Ready, Error}
    case FetchJob => state == UpdateAvailable
    case ApplyJob => state == UpdateReady
  }

  /** What the daemon can show right after a; only the end of a poll changes the
      update on offer. */
  predicate Follows(a: Daemon, b: Daemon) {
    && (match a.state
        case Ready => b.state == Polling
        case Error => b.state == Polling
        case Polling => b.state in {Ready, Error, UpdateAvailable}
        case UpdateAvailable => b.state == Fetching
        case Fetching => b.state in {UpdateReady, Error}
        case UpdateReady => b.state == ApplyingUpdate
        case ApplyingUpdate => b.state in {UpdateApplied, Error}
        case _ => false)
    && (a.state != Polling ==> b.id == a.id && b.refspec == a.refspec)
  }

  lemma {:induction false} FinishFollows(d: Daemon, e: Event)
    requires Good(d) && !e.Call? && !e.Cancel? && Enabled(d, e)
    ensures AcceptsCancel(d.state) && !AcceptsCancel(Step(d, e).state) && Follows(d, Step(d, e))
  {
  }

  lemma {:induction false} CallFollows(d: Daemon, job: Job)
    requires CallIsFor(d.state, job)
    ensures Accepts(d.state, job)
    ensures Step(d, Call(job)).state == StateOf(job) && Follows(d, Step(d, Call(job)))
  {
  }

  /** The notifications not yet handled lead from what the updater knows to what
      the daemon is: at most the start of a task and its end. */
  ghost predicate QueueFits(s: Session) {
    && Good(s.daemon) && s.proxy.state != NoState
    && match |s.signals|
       case 0 => s.proxy == s.daemon
       case 1 => Follows(s.proxy, s.signals[0]) && s.signals[0] == s.daemon
       case 2 => && Follows(s.proxy, s.signals[0]) && Follows(s.signals[0], s.signals[1])
                 && AcceptsCancel(s.signals[0].state) && !AcceptsCancel(s.daemon.state) && s.signals[1] == s.daemon
       case _ => false
  }

  lemma {:induction false} HeardQueue(config: Config, s: Session, moment: Moment)
    requires QueueFits(s) && s.signals != []
    ensures QueueFits(Notified(s)) && QueueFits(Heard(config, s, moment))
    ensures Follows(s.proxy, Notified(s).proxy)
    ensures !AcceptsCancel(Notified(s).proxy.state) ==> Notified(s).signals == [] && Notified(s).proxy == s.daemon
  {
  }

  lemma {:induction false} FinishQueue(s: Session, e: Event)
    requires QueueFits(s) && Possible(s, Finish(e))
    ensures QueueFits(Moved(s, Step(s.daemon, e)))
  {
    FinishFollows(s.daemon, e);
    StepKeepsGood(s.daemon, e);
  }

  lemma {:induction false} DeliverQueue(s: Session)
    requires QueueFits(s) && s.pending.Some? && s.signals == [] && CallIsFor(s.daemon.state, s.pending.value)
    ensures QueueFits(CallArrived(s)) && CallArrived(s).daemon.state == StateOf(s.pending.value)
    ensures CallArrived(s) == Moved(s, CallArrived(s).daemon).(pending := None)
  {
    CallFollows(s.daemon, s.pending.value);
    StepKeepsGood(s.daemon, Call(s.pending.value));
  }

  // --------------------------------------------------- one run, step by step

  predicate InOrder(calls: seq<Job>) {
    forall i, j :: 0 <= i < j < |calls| ==> Number(StepOf(calls[i])) < Number(StepOf(calls[j]))
  }

  predicate Within(config: Config, calls: seq<Job>) {
    forall i :: 0 <= i < |calls| ==> Number(StepOf(calls[i])) <= Number(config.last)
  }

  function LastStep(calls: seq<Job>): UpdateStep {
    if calls == [] then StepNone else StepOf(calls[|calls|-1])
  }

  /** Where the daemon can be after this run's last call has reached it. */
  predicate Reached(step: UpdateStep, state: State) {
    match step
    case StepNone => true
    case StepPoll => state in {Polling, Ready, Error, UpdateAvailable}
    case StepFetch => state in {Fetching, UpdateReady, Error}
    case StepApply => state in {ApplyingUpdate, UpdateApplied, Error}
  }

  /** The updater has reacted to something in this run. */
  predicate HasReacted(s: Session) {
    s.auto.previous != NoState
  }

  /** A call on its way finds the daemon as the updater knows it. */
  ghost predicate PendingFits(s: Session) {
    s.pending.Some? ==>
      && !s.auto.quit && HasReacted(s) && s.signals == [] && CallIsFor(s.daemon.state, s.pending.value)
      && s.calls != [] && s.calls[|s.calls|-1] == s.pending.value
      && (StepOf(s.pending.value) == StepPoll ==> s.auto.results.None?)
  }

  ghost predicate CallsFit(config: Config, s: Session) {
    && InOrder(s.calls) && Within(config, s.calls)
    && (s.pending.None? ==> Reached(LastStep(s.calls), s.daemon.state))
    && (s.auto.polled <==> s.calls != [] && StepOf(s.calls[0]) == StepPoll)
    && (!HasReacted(s) ==> s.calls == [] && s.pending.None?)
  }

  /** What the updater remembers agrees with what it has been told. */
  ghost predicate MemoryFits(s: Session) {
    && (HasReacted(s) ==>
          s.auto.previous == s.proxy.state || (s.proxy.state == Error && s.auto.previous == Ready))
    && (!HasReacted(s) ==> s.auto == FRESH && !s.started && (s.signals == [] || AcceptsCancel(s.proxy.state)))
    && (s.auto.failed <==> s.auto.previous == Error) && (s.auto.failed ==> s.auto.quit)
  }

  ghost predicate ResultsFit(s: Session) {
    && s.stored == StoredBy(s.notes)
    && (s.auto.results.Some? && !s.auto.quit ==>
          && s.notes != [] && s.auto.results == Some(s.notes[CountedFrom(s.notes)].results)
          && s.auto.results.value.refspec == s.proxy.refspec && s.auto.results.value.id == s.proxy.id
          && s.proxy.state !in {Polling, Ready, Error})
  }

  /** With nothing under way, the updater has quit or waits for a task. */
  ghost predicate Waiting(s: Session) {
    HasReacted(s) && !s.auto.quit && s.pending.None? && s.signals == [] ==> AcceptsCancel(s.daemon.state)
  }

  ghost predicate Sane(config: Config, s: Session) {
    QueueFits(s) && PendingFits(s) && CallsFit(config, s) && MemoryFits(s) && ResultsFit(s) && Waiting(s)
  }

  lemma {:induction false} BeginningIsSane(config: Config, s: Session)
    requires Beginning(s)
    ensures Sane(config, s)
  {
  }

  lemma {:induction false} OneMoreCall(calls: seq<Job>, job: Job)
    requires InOrder(calls) && Number(LastStep(calls)) < Number(StepOf(job))
    ensures InOrder(calls + [job])
  {
    var more := calls + [job];
    forall i, j | 0 <= i < j < |more| ensures Number(StepOf(more[i])) < Number(StepOf(more[j])) {
      if j == |calls| && i < |calls| - 1 {
        assert Number(StepOf(calls[i])) < Number(StepOf(calls[|calls|-1]));
      }
    }
  }

  lemma {:induction false} NumberAbove(calls: seq<Job>, i: nat)
    requires InOrder(calls) && i < |calls|
    ensures i < Number(StepOf(calls[i])) <= 3
  {
    if i > 0 {
      NumberAbove(calls, i - 1);
    }
  }

  /** The updater is about to react to a state that is new to it. */
  ghost predicate AboutToReact(config: Config, s: Session, state: State) {
    && CallsFit(config, s) && QueueFits(s) && s.pending.None? && !s.auto.quit
    && state != s.auto.previous && state != NoState
    && (state == s.proxy.state || (state == Ready && s.proxy.state == Error && !HasReacted(s)))
    && (!AcceptsCancel(state) ==> s.signals == [])
    && (s.auto.polled ==> HasReacted(s))
  }

  lemma {:induction false} CalledBefore(config: Config, s: Session, state: State)
    requires AboutToReact(config, s, state)
    ensures state == Ready && !s.auto.polled ==> s.calls == []
    ensures state == UpdateAvailable ==> Number(LastStep(s.calls)) < Number(StepFetch)
    ensures state == UpdateReady ==> Number(LastStep(s.calls)) < Number(StepApply)
  {
    if state == Ready && HasReacted(s) && s.calls != [] {
      NumberAbove(s.calls, |s.calls| - 1);
    }
  }

  lemma {:induction false} ReactionCalls(config: Config, s: Session, state: State, moment: Moment)
    requires AboutToReact(config, s, state)
    ensures PendingFits(Reacted(config, s, state, moment)) && CallsFit(config, Reacted(config, s, state, moment))
    ensures Waiting(Reacted(config, s, state, moment))
  {
    CallFitsState(config, s.auto, s.stored, s.proxy, state, moment);
    GoesOnOnlyWithCall(config, s.auto, s.stored, s.proxy, state, moment);
    var call := StateChanged(config, s.auto, s.stored, s.proxy, state, moment).call;
    hide StateChanged;
    if call.Some? {
      CalledBefore(config, s, state);
      OneMoreCall(s.calls, call.value);
    }
  }

  lemma {:induction false} ReactionMemory(config: Config, s: Session, state: State, moment: Moment)
    requires !s.auto.quit && state != NoState && state != s.auto.previous
    requires (s.auto.failed <==> s.auto.previous == Error) && (s.auto.failed ==> s.auto.quit)
    requires state == s.proxy.state || (state == Ready && s.proxy.state == Error)
    ensures MemoryFits(Reacted(config, s, state, moment))
  {
    hide StateChanged;
    FailureOnError(config, s.auto, s.stored, s.proxy, state, moment);
  }

  ghost predicate ResultsInUse(s: Session) {
    && s.stored == StoredBy(s.notes)
    && (s.auto.results.Some? ==>
          && s.notes != [] && s.auto.results == Some(s.notes[CountedFrom(s.notes)].results)
          && s.auto.results.value.refspec == s.proxy.refspec && s.auto.results.value.id == s.proxy.id)
  }

  lemma {:induction false} ReactionResults(config: Config, s: Session, state: State, moment: Moment)
    requires !s.auto.quit && state != s.auto.previous && ResultsInUse(s)
    requires s.auto.results.Some? ==> state !in {Polling, Ready}
    requires state == s.proxy.state || (state == Ready && s.proxy.state == Error && s.auto == FRESH)
    ensures ResultsFit(Reacted(config, s, state, moment))
  {
    hide StoredFrom, StoredBy, CountedFrom;
    ResultsNoted(config, s.auto, s.stored, s.proxy, state, moment);
    GoesOnOnlyWithCall(config, s.auto, s.stored, s.proxy, state, moment);
    OneMoreNote(s.notes, NoteNow(s.proxy, moment));
  }

  lemma {:induction false} HeardIsNew(config: Config, s: Session)
    requires Sane(config, s) && !s.auto.quit && s.signals != []
    ensures AboutToReact(config, Notified(s), Notified(s).proxy.state)
    ensures ResultsInUse(Notified(s)) && (s.auto.results.Some? ==> Notified(s).proxy.state !in {Polling, Ready})
  {
  }

  lemma {:induction false} HearKeepsSane(config: Config, s: Session, moment: Moment)
    requires Sane(config, s) && Possible(s, Hear(moment))
    ensures Sane(config, Heard(config, s, moment))
  {
    HeardIsNew(config, s);
    HeardQueue(config, s, moment);
    var t := Notified(s);
    ReactionCalls(config, t, t.proxy.state, moment);
    ReactionMemory(config, t, t.proxy.state, moment);
    ReactionResults(config, t, t.proxy.state, moment);
  }

  lemma {:induction false} BeginKeepsSane(config: Config, s: Session, moment: Moment)
    requires Sane(config, s) && Possible(s, Begin(moment))
    ensures Sane(config, Begun(config, s, moment))
  {
    var t := s.(started := true);
    if HasReacted(s) {
      assert FirstState(t.proxy) == s.auto.previous;
      assert Begun(config, s, moment) == t;
    } else {
      ReactionCalls(config, t, FirstState(t.proxy), moment);
      ReactionMemory(config, t, FirstState(t.proxy), moment);
      ReactionResults(config, t, FirstState(t.proxy), moment);
    }
  }

  lemma {:induction false} DeliverKeepsSane(config: Config, s: Session)
    requires Sane(config, s) && s.pending.Some?
    ensures Sane(config, CallArrived(s))
  {
    DeliverQueue(s);
  }

  lemma {:induction false} FinishKeepsSane(config: Config, s: Session, e: Event)
    requires Sane(config, s) && Possible(s, Finish(e))
    ensures Sane(config, Moved(s, Step(s.daemon, e)))
  {
    FinishFollows(s.daemon, e);
    FinishQueue(s, e);
  }

  lemma {:induction false} NextKeepsSane(config: Config, s: Session, h: Happening)
    requires Sane(config, s)
    ensures Sane(config, Next(config, s, h))
  {
    if Possible(s, h) {
      match h
      case Begin(moment) => BeginKeepsSane(config, s, moment);
      case Hear(moment) => HearKeepsSane(config, s, moment);
      case Deliver => DeliverKeepsSane(config, s);
      case Finish(e) => FinishKeepsSane(config, s, e);
      case Restart(d) =>
    }
  }

  lemma {:induction false} AlwaysSane(config: Config, s: Session, hs: seq<Happening>)
    requires Beginning(s)
    ensures Sane(config, History(config, s, hs))
  {
    if hs == [] {
      BeginningIsSane(config, s);
    } else {
      AlwaysSane(config, s, hs[..|hs|-1]);
      NextKeepsSane(config, History(config, s, hs[..|hs|-1]), hs[|hs|-1]);
    }
  }

  // -------------------------------------------------------------- whole runs

  /** In every history, each run makes its calls in the order poll, fetch,
      apply, each at most once and none past the configured last step; and a
      call that reaches the daemon is accepted. */
  lemma {:induction false} CallsOfEachRun(config: Config, s: Session, hs: seq<Happening>)
    requires Beginning(s)
    ensures InOrder(History(config, s, hs).calls) && Within(config, History(config, s, hs).calls)
    ensures |History(config, s, hs).calls| <= 3
    ensures History(config, s, hs).pending.Some? ==>
              Timely(History(config, s, hs).daemon, History(config, s, hs).pending.value)
  {
    hide Good;
    AlwaysSane(config, s, hs);
    var calls := History(config, s, hs).calls;
    if calls != [] {
      NumberAbove(calls, |calls| - 1);
    }
    if History(config, s, hs).pending.Some? {
      PendingIsTimely(History(config, s, hs));
    }
  }

  lemma {:induction false} PendingIsTimely(s: Session)
    requires QueueFits(s) && PendingFits(s) && s.pending.Some?
    ensures Timely(s.daemon, s.pending.value)
  {
  }

  function StateRank(state: State): nat {
    match state
    case Polling => 24
    case UpdateAvailable => 20
    case Fetching => 16
    case UpdateReady => 12
    case ApplyingUpdate => 8
    case _ => 0
  }

  function PendingRank(pending: Option<Job>): nat {
    match pending
    case None => 0
    case Some(PollJob) => 30
    case Some(PollVolumeJob) => 30
    case Some(_) => 1
  }

  function Rank(s: Session): nat {
    StateRank(s.daemon.state) + PendingRank(s.pending) + 3 * |s.signals|
    + (if s.auto.polled then 0 else 40) + (if s.started then 0 else 3)
  }

  /** Whatever happens within a run brings its end nearer. */
  lemma {:induction false} RankFalls(config: Config, s: Session, h: Happening)
    requires Sane(config, s) && Possible(s, h) && !h.Restart?
    ensures Rank(Next(config, s, h)) < Rank(s)
  {
    hide Begun, Reacted, CallArrived, Step, Rank;
    match h
    case Begin(moment) => BeginRankFalls(config, s, moment);
    case Hear(moment) => HearRankFalls(config, s, moment);
    case Deliver => DeliverRankFalls(s);
    case Finish(e) => FinishRankFalls(s, e);
  }

  lemma {:induction false} DeliverRankFalls(s: Session)
    requires QueueFits(s) && PendingFits(s) && s.pending.Some?
    ensures Rank(CallArrived(s)) < Rank(s)
  {
    DeliverQueue(s);
    hide CallArrived, QueueFits;
  }

  lemma {:induction false} FinishRankFalls(s: Session, e: Event)
    requires QueueFits(s) && PendingFits(s) && Possible(s, Finish(e))
    ensures Rank(Moved(s, Step(s.daemon, e))) < Rank(s)
  {
    FinishFollows(s.daemon, e);
    hide Step, QueueFits;
  }

  lemma {:induction false} BeginRankFalls(config: Config, s: Session, moment: Moment)
    requires Sane(config, s) && Possible(s, Begin(moment))
    ensures Rank(Begun(config, s, moment)) < Rank(s)
  {
    if HasReacted(s) {
      assert Begun(config, s, moment) == s.(started := true);
    } else {
      CallFitsState(config, s.auto, s.stored, s.proxy, FirstState(s.proxy), moment);
    }
  }

  lemma {:induction false} HearRankFalls(config: Config, s: Session, moment: Moment)
    requires Sane(config, s) && Possible(s, Hear(moment))
    ensures Rank(Heard(config, s, moment)) < Rank(s)
  {
    var t := Notified(s);
    CallFitsState(config, t.auto, t.stored, t.proxy, t.proxy.state, moment);
  }

  /** One run: only what is possible, and no new start of the updater. */
  ghost predicate OneRun(config: Config, s: Session, hs: seq<Happening>) {
    hs != [] ==>
      && OneRun(config, s, hs[..|hs|-1])
      && !hs[|hs|-1].Restart? && Possible(History(config, s, hs[..|hs|-1]), hs[|hs|-1])
  }

  lemma {:induction false} RankBounded(config: Config, s: Session)
    requires Sane(config, s)
    ensures Rank(s) <= 73
  {
  }

  lemma {:induction false} RunsAreShort(config: Config, s: Session, hs: seq<Happening>)
    requires Sane(config, s) && OneRun(config, s, hs)
    ensures Sane(config, History(config, s, hs))
    ensures |hs| + Rank(History(config, s, hs)) <= Rank(s) && Rank(s) <= 73
  {
    hide Sane, Possible, Next, Rank;
    RankBounded(config, s);
    if hs != [] {
      var before := History(config, s, hs[..|hs|-1]);
      RunsAreShort(config, s, hs[..|hs|-1]);
      RankFalls(config, before, hs[|hs|-1]);
      NextKeepsSane(config, before, hs[|hs|-1]);
    }
  }

  /** Nothing can happen any more in this run. */
  ghost predicate Stuck(s: Session) {
    forall h :: Possible(s, h) ==> h.Restart?
  }

  /** However calls, notifications and tasks are delayed, a run goes on until
      the updater quits. */
  lemma {:induction false} RunEndsWithQuit(config: Config, s: Session, hs: seq<Happening>)
    requires Beginning(s)
    ensures Stuck(History(config, s, hs)) ==> History(config, s, hs).auto.quit
  {
    AlwaysSane(config, s, hs);
    var end := History(config, s, hs);
    if Stuck(end) {
      SomethingHappens(config, end);
    }
  }

  lemma {:induction false} SomethingHappens(config: Config, s: Session)
    requires Sane(config, s) && Stuck(s)
    ensures s.auto.quit
  {
    var now := Moment(0, 0, true, true);
    assert !Possible(s, Begin(now)) && !Possible(s, Hear(now)) && !Possible(s, Deliver);
    assert !Possible(s, Finish(PollFinished(0, Success(None), Success(()))));
    assert !Possible(s, Finish(FetchFinished(0, Success(()))));
    assert !Possible(s, Finish(ApplyFinished(0, Success(()))));
  }

  /** The program reports failure exactly if the last state it reacted to was
      an error, and has quit then. */
  lemma {:induction false} FailsIffErrorSeen(config: Config, s: Session, hs: seq<Happening>)
    requires Beginning(s)
    ensures History(config, s, hs).auto.failed <==> History(config, s, hs).auto.previous == Error
    ensures History(config, s, hs).auto.failed ==> History(config, s, hs).auto.quit
  {
    hide QueueFits, PendingFits, CallsFit, ResultsFit, Waiting, Beginning;
    AlwaysSane(config, s, hs);
  }

  /** How a run that did not fail has ended: nothing is under way, and either
      the update is in place or the next step is not to be taken. */
  ghost predicate EndFits(config: Config, s: Session) {
    s.auto.quit && !s.auto.failed ==>
      && s.pending.None? && s.signals == []
      && match s.daemon.state
         case Ready => s.auto.polled || config.last == StepNone
         case Error => config.last == StepNone
         case UpdateAvailable => Number(config.last) < Number(StepFetch)
         case UpdateReady => config.last == StepApply ==> !config.forceUpdate && s.daemon.visible
         case UpdateApplied => true
         case _ => false
  }

  lemma {:induction false} ReactionEnds(config: Config, s: Session, state: State, moment: Moment)
    requires AboutToReact(config, s, state) && s.pending.None?
    ensures EndFits(config, Reacted(config, s, state, moment))
  {
    hide StateChanged;
    QuitsAtStep(config, s.auto, s.stored, s.proxy, state, moment);
    CallFitsState(config, s.auto, s.stored, s.proxy, state, moment);
  }

  lemma {:induction false} NextEndFits(config: Config, s: Session, h: Happening)
    requires Sane(config, s) && EndFits(config, s)
    ensures EndFits(config, Next(config, s, h))
  {
    if Possible(s, h) {
      match h
      case Begin(moment) => BeginEndFits(config, s, moment);
      case Hear(moment) => HearEndFits(config, s, moment);
      case Deliver => DeliverQueue(s);
      case Finish(e) => FinishFollows(s.daemon, e);
      case Restart(d) =>
    }
  }

  lemma {:induction false} BeginEndFits(config: Config, s: Session, moment: Moment)
    requires Sane(config, s) && Possible(s, Begin(moment))
    ensures EndFits(config, Begun(config, s, moment))
  {
    if HasReacted(s) {
      assert Begun(config, s, moment) == s.(started := true);
    } else {
      ReactionEnds(config, s.(started := true), FirstState(s.proxy), moment);
    }
  }

  lemma {:induction false} HearEndFits(config: Config, s: Session, moment: Moment)
    requires Sane(config, s) && Possible(s, Hear(moment))
    ensures EndFits(config, Heard(config, s, moment))
  {
    HeardIsNew(config, s);
    ReactionEnds(config, Notified(s), Notified(s).proxy.state, moment);
  }

  /** A run that ends without failing has polled in vain, gone as far as it is
      configured to, left a visible update waiting, or put the update in place. */
  lemma {:induction false} EndsWhenDone(config: Config, s: Session, hs: seq<Happening>)
    requires Beginning(s)
    ensures EndFits(config, History(config, s, hs))
  {
    if hs != [] {
      EndsWhenDone(config, s, hs[..|hs|-1]);
      AlwaysSane(config, s, hs[..|hs|-1]);
      NextEndFits(config, History(config, s, hs[..|hs|-1]), hs[|hs|-1]);
    }
  }

  // ------------------------------------------------------ what is done, and when

  /** In h the updater learns that the daemon is in this state; an error from
      before the run counts as being ready. */
  ghost predicate Learns(s: Session, h: Happening, state: State) {
    match h
    case Begin(_) => !HasReacted(s) && state == (if s.proxy.state == Error then Ready else s.proxy.state)
    case Hear(_) => s.signals != [] && state == s.signals[0].state
    case _ => false
  }

  function CountedResults(s: Session): PollResults
    requires s.notes != []
  {
    s.notes[CountedFrom(s.notes)].results
  }

  lemma {:induction false} ReadyCounts(config: Config, s: Session, moment: Moment)
    requires AboutToReact(config, s, UpdateReady) && ResultsInUse(s) && config.last == StepApply
    ensures (var after := Reacted(config, s, UpdateReady, moment);
             && after.notes != [] && after.auto.results == Some(CountedResults(after))
             && CountedResults(after).refspec == s.proxy.refspec && CountedResults(after).id == s.proxy.id
             && (after.pending == Some(ApplyJob) <==> !TooEarly(config, after.auto, s.proxy, moment)))
  {
    hide StateChanged, StoredFrom, StoredBy, CountedFrom, QueueFits, CallsFit;
    ReadyReaction(config, s.auto, s.stored, s.proxy, moment);
    ResultsNoted(config, s.auto, s.stored, s.proxy, UpdateReady, moment);
    OneMoreNote(s.notes, NoteNow(s.proxy, moment));
  }

  /** At this time the delay since that date has passed, in microseconds since
      1970 and up to the largest number of 64 bits. */
  ghost predicate DelayOver(config: Config, since: Uint64, time: Int64) {
    (if time < 0 then 0 else time)
    >= (if since + config.delay > 0xFFFF_FFFF_FFFF_FFFF then 0xFFFF_FFFF_FFFF_FFFF else since + config.delay)
  }

  /** When the updater finds an update ready and may apply it, it does so
      exactly if it is forced to, the update is not user visible, or the delay
      has passed since the date that counts, which always is the date of a note
      about that update, whichever writes of the file have failed. */
  lemma {:induction false} ApplyWaitsForDelay(config: Config, s: Session, hs: seq<Happening>, h: Happening)
    requires Beginning(s) && config.last == StepApply
    requires Possible(History(config, s, hs), h) && Learns(History(config, s, hs), h, UpdateReady)
    ensures (var after := Next(config, History(config, s, hs), h);
             && after.notes != []
             && CountedResults(after).refspec == after.daemon.refspec && CountedResults(after).id == after.daemon.id
             && (after.pending == Some(ApplyJob) <==>
                   || config.forceUpdate || !after.daemon.visible
                   || DelayOver(config, CountedResults(after).changed, h.moment.checked)))
  {
    hide Good, CountedFrom, StoredFrom, StoredBy, StateChanged;
    var now := History(config, s, hs);
    AlwaysSane(config, s, hs);
    if h.Hear? {
      HeardIsNew(config, now);
      ReadyCounts(config, Notified(now), h.moment);
    } else {
      ReadyCounts(config, now.(started := true), h.moment);
    }
  }

  /** The updater makes this call and waits for its outcome. */
  ghost predicate Calls(before: Session, after: Session, job: Job) {
    after.calls == before.calls + [job] && after.pending == Some(job) && !after.auto.quit
  }

  ghost predicate Quits(before: Session, after: Session) {
    after.calls == before.calls && after.pending == None && after.auto.quit
  }

  ghost predicate Waits(before: Session, after: Session) {
    after.calls == before.calls && after.pending == None && !after.auto.quit
  }

  /** The reaction to each state: a poll once in a run, of the volume if one is
      given, then each step up to the configured last one; the run fails with
      an error. */
  ghost predicate ReactsTo(config: Config, before: Session, after: Session, state: State) {
    && after.auto.previous == state && (after.auto.failed <==> state == Error)
    && match state
       case Ready =>
         if before.calls == [] && config.last != StepNone then
           Calls(before, after, if config.fromVolume then PollVolumeJob else PollJob)
         else
           Quits(before, after)
       case UpdateAvailable =>
         if config.last in {StepFetch, StepApply} then Calls(before, after, FetchJob) else Quits(before, after)
       case UpdateReady =>
         (config.last == StepApply && Calls(before, after, ApplyJob)) || Quits(before, after)
       case Error => Quits(before, after)
       case UpdateApplied => Quits(before, after)
       case _ => Waits(before, after)
  }

  lemma {:induction false} ReactionFits(config: Config, s: Session, state: State, moment: Moment)
    requires AboutToReact(config, s, state) && (s.auto.failed ==> s.auto.quit)
    ensures ReactsTo(config, s, Reacted(config, s, state, moment), state)
  {
    hide StateChanged;
    CalledBefore(config, s, state);
    CallFitsState(config, s.auto, s.stored, s.proxy, state, moment);
    GoesOnOnlyWithCall(config, s.auto, s.stored, s.proxy, state, moment);
    QuitsAtStep(config, s.auto, s.stored, s.proxy, state, moment);
    PollsVolumeIff(config, s.auto, s.stored, s.proxy, state, moment);
  }

  /** Whatever has happened before, the updater reacts in this way to what it
      learns. */
  lemma {:induction false} ReactsAsConfigured(config: Config, s: Session, hs: seq<Happening>, h: Happening,
                                              state: State)
    requires Beginning(s) && Possible(History(config, s, hs), h) && Learns(History(config, s, hs), h, state)
    ensures ReactsTo(config, History(config, s, hs), Next(config, History(config, s, hs), h), state)
  {
    hide Good, CountedFrom, StoredFrom, StoredBy, StateChanged;
    var now := History(config, s, hs);
    AlwaysSane(config, s, hs);
    if h.Hear? {
      HeardIsNew(config, now);
      ReactionFits(config, Notified(now), state, h.moment);
    } else {
      ReactionFits(config, now.(started := true), state, h.moment);
    }
  }

  /** Between two starts of the updater nothing else changes it or the file. */
  lemma {:induction false} OthersLeaveUpdater(config: Config, s: Session, hs: seq<Happening>, h: Happening)
    requires Beginning(s) && Possible(History(config, s, hs), h)
    requires h.Deliver? || h.Finish? || (h.Begin? && HasReacted(History(config, s, hs)))
    ensures (var before, after := History(config, s, hs), Next(config, History(config, s, hs), h);
             && after.auto == before.auto && after.stored == before.stored
             && after.notes == before.notes && after.calls == before.calls)
  {
    hide Good, CountedFrom, StoredFrom, StoredBy, StateChanged;
    var now := History(config, s, hs);
    AlwaysSane(config, s, hs);
    match h
    case Begin(moment) => BegunAgain(config, now, moment);
    case Deliver => DeliverQueue(now);
    case Finish(_) =>
  }

  lemma {:induction false} BegunAgain(config: Config, s: Session, moment: Moment)
    requires MemoryFits(s) && HasReacted(s) && !s.auto.quit
    ensures Begun(config, s, moment) == s.(started := true)
  {
  }

  /** What is noted about d at this moment. */
  ghost function Dated(d: Daemon, moment: Moment): PollResults {
    PollResults(if moment.noted < 0 then 0 else moment.noted, d.refspec, d.id)
  }

  /** What the updater writes down when it learns of a state: the update that
      the daemon then shows, with the time, when a poll has ended or it has no
      results for an update that is available or ready; what it then has in
      memory are the results that count, and none when it starts a poll. */
  ghost predicate TakesNote(before: Session, after: Session, state: State, moment: Moment) {
    var takes := before.auto.previous == Polling
                 || (state in {UpdateAvailable, UpdateReady} && before.auto.results == None);
    && after.notes == (if takes then
                         before.notes + [Note(Dated(after.proxy, moment), moment.readable, moment.writable)]
                       else
                         before.notes)
    && (!after.auto.quit ==>
          after.auto.results == if after.pending in {Some(PollJob), Some(PollVolumeJob)} then None
                                else if takes then Some(CountedResults(after)) else before.auto.results)
  }

  lemma {:induction false} NotesWhatItLearns(config: Config, s: Session, hs: seq<Happening>, h: Happening, state: State)
    requires Beginning(s) && Possible(History(config, s, hs), h) && Learns(History(config, s, hs), h, state)
    ensures TakesNote(History(config, s, hs), Next(config, History(config, s, hs), h), state, h.moment)
  {
    hide Good, CountedFrom, StoredFrom, StoredBy, StateChanged;
    var now := History(config, s, hs);
    AlwaysSane(config, s, hs);
    if h.Hear? {
      HeardIsNew(config, now);
      ReactionTakesNote(config, Notified(now), state, h.moment);
    } else {
      ReactionTakesNote(config, now.(started := true), state, h.moment);
    }
  }

  lemma {:induction false} ReactionTakesNote(config: Config, s: Session, state: State, moment: Moment)
    requires AboutToReact(config, s, state) && ResultsInUse(s)
    ensures TakesNote(s, Reacted(config, s, state, moment), state, moment)
  {
    hide StateChanged, StoredFrom, StoredBy, CountedFrom, QueueFits, CallsFit;
    InMemory(config, s.auto, s.stored, s.proxy, state, moment);
    OneMoreNote(s.notes, NoteNow(s.proxy, moment));
  }

  /** In every history the file holds the results that start the latest stretch
      of notes about one update, and nothing before the first note written. */
  lemma {:induction false} FileHoldsIff(config: Config, s: Session, hs: seq<Happening>, r: PollResults)
    requires Beginning(s)
    ensures (var now := History(config, s, hs);
             now.stored == Some(r) <==> exists k: nat :: StartsStretch(now.notes, k) && now.notes[k].results == r)
  {
    hide QueueFits, PendingFits, CallsFit, MemoryFits, Waiting, Beginning;
    var now := History(config, s, hs);
    AlwaysSane(config, s, hs);
    StoredIsFrom(now.notes);
    if StoredFrom(now.notes).Some? {
      StoredFromIff(now.notes, StoredFrom(now.notes).value);
    }
    forall k: nat | StartsStretch(now.notes, k) ensures now.stored == Some(now.notes[k].results) {
      StoredFromIff(now.notes, k);
    }
  }

  // ------------------------------------------- failed polls and the date kept

  /** A poll that fails is noted like any other: what the file holds survives
      it if it can be read and the daemon still shows that update, and is
      otherwise replaced by what the daemon shows, dated now. */
  lemma {:induction false} FailedPollKeepsDateIff(config: Config, s: Session, hs: seq<Happening>, moment: Moment)
    requires Beginning(s)
    requires (var now := History(config, s, hs);
              && Possible(now, Hear(moment)) && HasReacted(now) && now.proxy.state == Polling
              && now.signals[0].state == Error && now.stored.Some? && moment.writable)
    ensures (var now := History(config, s, hs);
             var after := Next(config, now, Hear(moment));
             if moment.readable && now.stored.value.refspec == now.daemon.refspec
                && now.stored.value.id == now.daemon.id
             then
               after.stored == now.stored
             else
               after.stored == Some(Dated(now.daemon, moment)))
  {
    hide Good, CountedFrom, StoredFrom, StoredBy, StateChanged;
    var now := History(config, s, hs);
    AlwaysSane(config, s, hs);
    HeardQueue(config, now, moment);
    ResultsNoted(config, now.auto, now.stored, Notified(now).proxy, Error, moment);
  }

  lemma {:induction false} TwoParts(config: Config, s: Session, a: seq<Happening>, b: seq<Happening>)
    ensures History(config, s, a + b) == History(config, History(config, s, a), b)
  {
    if b == [] {
      assert a + b == a;
    } else {
      TwoParts(config, s, a, b[..|b|-1]);
      assert (a + b)[..|a + b|-1] == a + b[..|b|-1];
    }
  }

  lemma {:induction false} OneStep(config: Config, s: Session, h: Happening)
    ensures History(config, s, [h]) == Next(config, s, h)
  {
    assert [h][..0] == [];
  }

  /** The update that d shows is visible and new to the file, and at this moment
      the delay counted from now has not passed. */
  ghost predicate MustWait(config: Config, stored: Option<PollResults>, d: Daemon, moment: Moment) {
    && config.last == StepApply && !config.forceUpdate && d.state == UpdateReady && d.visible
    && moment.writable
    && (moment.readable && stored.Some? ==> stored.value.refspec != d.refspec || stored.value.id != d.id)
    && !DelayOver(config, if moment.noted < 0 then 0 else moment.noted, moment.checked)
  }

  /** A run that finds such an update ready only notes it. */
  lemma {:induction false} OnlyNoted(config: Config, s: Session, moment: Moment)
    requires s == StartedAnew(s, s.daemon) && MustWait(config, s.stored, s.daemon, moment)
    ensures (var after := History(config, s, [Begin(moment)]);
             && after.auto.quit && after.calls == [] && after.stored == Some(Dated(s.daemon, moment)))
  {
    OneStep(config, s, Begin(moment));
  }

  /** A run whose poll fails at once. */
  function FailedPoll(moment: Moment, error: ErrorName): seq<Happening> {
    [Begin(moment), Deliver] + [Finish(PollFinished(0, Failure(error), Success(())))] + [Hear(moment), Hear(moment)]
  }

  predicate Forgetful(d: Daemon) {
    d.state == Ready && d.workers == [] && d.id == "" && d.refspec == ""
  }

  lemma {:induction false} PollCalled(config: Config, s: Session, moment: Moment)
    requires s == StartedAnew(s, s.daemon) && Good(s.daemon) && Forgetful(s.daemon) && config.last != StepNone
    ensures (var after := History(config, s, [Begin(moment), Deliver]);
             && after.proxy == s.daemon && after.signals == [after.daemon] && after.stored == s.stored
             && after.auto == Auto(true, Ready, None, false, false)
             && after.daemon.state == Polling && after.daemon.id == "" && after.daemon.refspec == ""
             && |after.daemon.workers| == 1 && after.daemon.workers[0].job in {PollJob, PollVolumeJob})
  {
    var job := if config.fromVolume then PollVolumeJob else PollJob;
    OneStep(config, s, Begin(moment));
    TwoParts(config, s, [Begin(moment)], [Deliver]);
    OneStep(config, Begun(config, s, moment), Deliver);
    assert [Begin(moment)] + [Deliver] == [Begin(moment), Deliver];
    assert Started(s.daemon, job).workers == [NewWorker(s.daemon, job, WithFreshToken(s.daemon).token)];
  }

  lemma {:induction false} PollFails(config: Config, s: Session, error: ErrorName)
    requires s.daemon.state == Polling && s.daemon.id == "" && s.daemon.refspec == "" && s.signals == [s.daemon]
    requires |s.daemon.workers| == 1 && s.daemon.workers[0].job in {PollJob, PollVolumeJob}
    ensures (var after := History(config, s, [Finish(PollFinished(0, Failure(error), Success(())))]);
             && after == Moved(s, after.daemon) && after.signals == [s.daemon, after.daemon]
             && after.daemon.state == Error && after.daemon.id == "" && after.daemon.refspec == "")
  {
    OneStep(config, s, Finish(PollFinished(0, Failure(error), Success(()))));
  }

  lemma {:induction false} FailureHeard(config: Config, s: Session, polling: Daemon, failed: Daemon, moment: Moment)
    requires s.signals == [polling, failed] && s.auto == Auto(true, Ready, None, false, false) && moment.writable
    requires polling.state == Polling && failed.state == Error
    requires Differs(Known(s.stored, moment), ResultsNow(failed, moment))
    ensures (var after := History(config, s, [Hear(moment), Hear(moment)]);
             after.auto.quit && after.stored == Some(ResultsNow(failed, moment)))
  {
    OneStep(config, s, Hear(moment));
    TwoParts(config, s, [Hear(moment)], [Hear(moment)]);
    assert [Hear(moment)] + [Hear(moment)] == [Hear(moment), Hear(moment)];
    OneStep(config, Heard(config, s, moment), Hear(moment));
  }

  lemma {:induction false} DateForgotten(config: Config, s: Session, moment: Moment, error: ErrorName)
    requires s == StartedAnew(s, s.daemon) && Good(s.daemon) && Forgetful(s.daemon) && config.last != StepNone
    requires moment.writable && s.stored.Some? && s.stored.value.id != ""
    ensures (var after := History(config, s, FailedPoll(moment, error));
             after.auto.quit && after.stored == Some(PollResults(if moment.noted < 0 then 0 else moment.noted, "", "")))
  {
    var fails := [Finish(PollFinished(0, Failure(error), Success(())))];
    PollCalled(config, s, moment);
    var called := History(config, s, [Begin(moment), Deliver]);
    PollFails(config, called, error);
    var failed := History(config, called, fails);
    TwoParts(config, s, [Begin(moment), Deliver], fails);
    TwoParts(config, s, [Begin(moment), Deliver] + fails, [Hear(moment), Hear(moment)]);
    FailureHeard(config, failed, called.daemon, failed.daemon, moment);
  }

  /** Three runs: the first finds a visible update ready and notes it; the
      second meets a daemon that was restarted and whose poll fails; the third
      finds the update ready again. */
  function ThreeRuns(ready: Daemon, first: Moment, blank: Daemon, second: Moment, error: ErrorName, third: Moment)
    : seq<Happening>
  {
    [Begin(first)] + ([Restart(blank)] + (FailedPoll(second, error) + ([Restart(ready)] + [Begin(third)])))
  }

  /** The delay is counted from the third run, though the update had been known
      since the first. */
  lemma {:induction false} DelayStartsAgain(config: Config, s: Session, first: Moment, blank: Daemon, second: Moment,
                                            error: ErrorName, third: Moment)
    requires Beginning(s) && s.notes == [] && s.daemon.id != ""
    requires MustWait(config, None, s.daemon, first) && MustWait(config, None, s.daemon, third)
    requires Good(blank) && Forgetful(blank) && second.writable
    ensures (var after := History(config, s, ThreeRuns(s.daemon, first, blank, second, error, third));
             && after.auto.quit && after.calls == [] && after.stored == Some(Dated(s.daemon, third)))
  {
    var one := History(config, s, [Begin(first)]);
    var rest := FailedPoll(second, error) + ([Restart(s.daemon)] + [Begin(third)]);
    OnlyNoted(config, s, first);
    TwoParts(config, s, [Begin(first)], [Restart(blank)] + rest);
    OneStep(config, one, Restart(blank));
    var two := StartedAnew(one, blank);
    TwoParts(config, one, [Restart(blank)], rest);
    DateForgotten(config, two, second, error);
    TwoParts(config, two, FailedPoll(second, error), [Restart(s.daemon)] + [Begin(third)]);
    var failed := History(config, two, FailedPoll(second, error));
    TwoParts(config, failed, [Restart(s.daemon)], [Begin(third)]);
    OneStep(config, failed, Restart(s.daemon));
    OnlyNoted(config, StartedAnew(failed, s.daemon), third);
  }
}
