/**
 The life of a curriculum source and of its parse jobs: create, pick-up, success, failure, cancel, retry, restart
 (src/agora-curriculum/agora-curriculum.service.ts, src/agora-curriculum/curriculum.processor.ts).
 Every call is one atomic step; a pick-up and the end of the attempt it begins are two.
 */
module SourceQueue {
  import opened Prelude

  datatype SourceStatus = PENDING_PARSE | PARSING | PARSED | FAILED

  /** The queue keeps jobs that were added with a priority apart from the waiting ones. */
  datatype JobPhase = Waiting | Prioritized | Delayed | Active

  datatype Job = Job(source: nat, attemptsMade: nat, maxAttempts: nat, hasPriority: bool, phase: JobPhase)

  /** The queue's default: two attempts. */
  const ATTEMPTS := 2

  /**
   `jobs` is what the queue holds; `running` are the attempts that workers are executing, as they were picked up.
   An attempt whose job was removed by a cancellation goes on running. An active job without a running attempt is one
   that a crash left behind.
   */
  datatype State = State(
    sources: map<nat, SourceStatus>, jobs: map<nat, Job>, running: map<nat, Job>, nextSource: nat, nextJob: nat)

  datatype Outcome = Succeeded | FailedBeforeParsed | FailedAfterParsed

  /** `stuck` are the active jobs that the startup cannot move to failed; `givenUp` says that a job stalled too often. */
  datatype Event =
    | CreateSource
    | RetryParsing(source: nat)
    | CancelProcessing(source: nat, locked: bool)
    | Restart(stuck: set<nat>)
    | Promote(job: nat)
    | Recover(job: nat, givenUp: bool)
    | PickUp(job: nat)
    | Finish(job: nat, outcome: Outcome)

  // ---------------------------------------------------------------- the transitions

  function QueuedPhase(hasPriority: bool): JobPhase { if hasPriority then Prioritized else Waiting }

  predicate IsQueued(job: Job) { job.phase == Waiting || job.phase == Prioritized }

  function NewJob(source: nat, hasPriority: bool): Job { Job(source, 0, ATTEMPTS, hasPriority, QueuedPhase(hasPriority)) }

  function Enqueued(st: State, source: nat, hasPriority: bool): State {
    st.(jobs := st.jobs[st.nextJob := NewJob(source, hasPriority)], nextJob := st.nextJob + 1)
  }

  function WithNewSource(st: State): State {
    st.(sources := st.sources[st.nextSource := PENDING_PARSE], nextSource := st.nextSource + 1)
  }

  function Created(st: State): State { Enqueued(WithNewSource(st), st.nextSource, true) }

  predicate MayRetry(st: State, source: nat) {
    source in st.sources && (st.sources[source] == FAILED || st.sources[source] == PENDING_PARSE)
  }

  /** Only a failed or a stuck pending source can be retried; any other request is refused. */
  function Retried(st: State, source: nat): State {
    if MayRetry(st, source) then Enqueued(st.(sources := st.sources[source := PENDING_PARSE]), source, false) else st
  }

  predicate JobFor(st: State, j: nat, source: nat) { j in st.jobs && st.jobs[j].source == source }

  /** The active, the waiting and the delayed jobs are searched, the prioritised ones are not. */
  predicate IsListed(st: State, j: nat, source: nat) { JobFor(st, j, source) && st.jobs[j].phase != Prioritized }

  ghost predicate HasListed(st: State, source: nat) { exists j :: IsListed(st, j, source) }

  /** The search goes through the active jobs first, then the waiting ones, then the delayed ones. */
  function SearchRank(phase: JobPhase): nat {
    match phase
    case Active => 0
    case Waiting => 1
    case Delayed => 2
    case Prioritized => 3
  }

  ghost predicate IsFound(st: State, j: nat, source: nat) {
    IsListed(st, j, source) && forall i :: IsListed(st, i, source) ==> SearchRank(st.jobs[j].phase) <= SearchRank(st.jobs[i].phase)
  }

  /** The first job found for the source is removed, unless it is active and locked, which makes the call fail. */
  ghost predicate CancelStep(st: State, source: nat, locked: bool, st': State) {
    if source !in st.sources then st' == st
    else if !HasListed(st, source) then st' == st.(sources := st.sources[source := FAILED])
    else
      exists j :: IsFound(st, j, source) &&
        st' == if st.jobs[j].phase == Active && locked then st
               else st.(jobs := st.jobs - {j}, sources := st.sources[source := FAILED])
  }

  /** A delayed job is due and joins the queue. */
  function Promoted(st: State, j: nat): State
    requires j in st.jobs
  {
    st.(jobs := st.jobs[j := st.jobs[j].(phase := QueuedPhase(st.jobs[j].hasPriority))])
  }

  /** The queue notices an active job that nobody executes: it joins the queue again, or fails for good. */
  function Recovered(st: State, j: nat, givenUp: bool): State
    requires j in st.jobs
  {
    if givenUp then st.(jobs := st.jobs - {j}) else Promoted(st, j)
  }

  /** A job whose source is already settled is dropped; otherwise its attempt begins. */
  function PickedUp(st: State, j: nat): State
    requires j in st.jobs && st.jobs[j].source in st.sources
  {
    var job := st.jobs[j];
    var status := st.sources[job.source];
    if status == FAILED || status == PARSED then st.(jobs := st.jobs - {j})
    else
      st.(sources := st.sources[job.source := PARSING],
          jobs := st.jobs[j := job.(phase := Active)],
          running := st.running[j := job.(phase := Active)])
  }

  predicate IsFinalAttempt(job: Job) { job.attemptsMade + 1 >= job.maxAttempts }

  function StatusAfter(status: SourceStatus, job: Job, outcome: Outcome): SourceStatus {
    match outcome
    case Succeeded => PARSED
    case FailedBeforeParsed => if IsFinalAttempt(job) then FAILED else status
    case FailedAfterParsed => if IsFinalAttempt(job) then FAILED else PARSED
  }

  function Finished(st: State, j: nat, outcome: Outcome): State
    requires j in st.running && st.running[j].source in st.sources
  {
    var job := st.running[j];
    st.(sources := st.sources[job.source := StatusAfter(st.sources[job.source], job, outcome)],
        running := st.running - {j},
        jobs := if j !in st.jobs || outcome == Succeeded || IsFinalAttempt(job) then st.jobs - {j}
                else st.jobs[j := job.(attemptsMade := job.attemptsMade + 1, phase := Delayed)])
  }

  function AfterCrash(status: SourceStatus): SourceStatus { if status == PARSING then FAILED else status }

  predicate IsPending(st: State, s: nat) { s in st.sources && st.sources[s] == PENDING_PARSE }

  predicate IsStuck(st: State, stuck: set<nat>, j: nat) { j in stuck && j in st.jobs && st.jobs[j].phase == Active }

  /** The jobs of `st` are the stuck ones of `before`, and from `first` on one new job for each pending source below `n`. */
  ghost predicate Requeued(before: State, stuck: set<nat>, st: State, n: nat, first: nat) {
    && (forall j :: j in st.jobs && j < first ==> IsStuck(before, stuck, j) && st.jobs[j] == before.jobs[j])
    && (forall j: nat :: IsStuck(before, stuck, j) ==> j < first && j in st.jobs)
    && (forall j :: j in st.jobs && first <= j ==>
          && j < st.nextJob && st.jobs[j] == NewJob(st.jobs[j].source, true)
          && IsPending(st, st.jobs[j].source) && st.jobs[j].source < n)
    && (forall s: nat :: IsPending(st, s) && s < n ==> HasNewJob(st, s, first))
    && (forall i, j :: i in st.jobs && j in st.jobs && first <= i && first <= j && st.jobs[i].source == st.jobs[j].source ==> i == j)
  }

  ghost predicate HasNewJob(st: State, source: nat, first: nat) { exists j :: first <= j && JobFor(st, j, source) }

  /**
   After a restart no attempt runs, PARSING sources are FAILED, each pending source has one new job, and of the old jobs
   only the stuck ones are left.
   */
  ghost predicate RestartStep(st: State, stuck: set<nat>, st': State) {
    && st'.nextSource == st.nextSource && st'.nextJob >= st.nextJob
    && st'.sources == (map s | s in st.sources :: AfterCrash(st.sources[s]))
    && st'.running == map[]
    && Requeued(st, stuck, st', st.nextSource, st.nextJob)
  }

  ghost predicate HasJob(st: State, source: nat) { exists j :: JobFor(st, j, source) }

  ghost predicate Step(st: State, ev: Event, st': State) {
    match ev
    case CreateSource => st' == Created(st)
    case RetryParsing(s) => st' == Retried(st, s)
    case CancelProcessing(s, locked) => CancelStep(st, s, locked, st')
    case Restart(stuck) => RestartStep(st, stuck, st')
    case Promote(j) => j in st.jobs && st.jobs[j].phase == Delayed && st' == Promoted(st, j)
    case Recover(j, givenUp) => j in st.jobs && st.jobs[j].phase == Active && j !in st.running && st' == Recovered(st, j, givenUp)
    case PickUp(j) => j in st.jobs && IsQueued(st.jobs[j]) && st.jobs[j].source in st.sources && st' == PickedUp(st, j)
    case Finish(j, outcome) => j in st.running && st.running[j].source in st.sources && st' == Finished(st, j, outcome)
  }

  // ---------------------------------------------------------------- what every reachable state satisfies

  predicate Unsettled(status: SourceStatus) { status == PENDING_PARSE || status == PARSING }

  ghost predicate Known(st: State) {
    && (forall s :: s in st.sources ==> s < st.nextSource)
    && (forall j :: j in st.jobs ==> j < st.nextJob && st.jobs[j].source in st.sources)
    && (forall j :: j in st.running ==> j < st.nextJob && st.running[j].source in st.sources)
  }

  /** Every job has an attempt left, and a job whose attempt is running is active. */
  ghost predicate AttemptsAgree(st: State) {
    && (forall j :: j in st.jobs ==> st.jobs[j].attemptsMade < st.jobs[j].maxAttempts)
    && (forall j :: j in st.jobs && j in st.running ==> st.running[j] == st.jobs[j] && st.jobs[j].phase == Active)
  }

  /** A job that is in the queue, or whose attempt is running: not one that a crash left behind. */
  predicate LiveJobFor(st: State, j: nat, source: nat) {
    JobFor(st, j, source) && (st.jobs[j].phase == Active ==> j in st.running)
  }

  ghost predicate HasLiveJob(st: State, source: nat) { exists j :: LiveJobFor(st, j, source) }

  /** No source is stranded: one that still waits for its parse has a live job. */
  ghost predicate NoneStranded(st: State) {
    forall s :: s in st.sources && Unsettled(st.sources[s]) ==> HasLiveJob(st, s)
  }

  ghost predicate Inv(st: State) { Known(st) && AttemptsAgree(st) && NoneStranded(st) }

  const EMPTY := State(map[], map[], map[], 0, 0)

  ghost predicate IsRun(states: seq<State>, events: seq<Event>) {
    && |states| == |events| + 1
    && forall i :: 0 <= i < |events| ==> Step(states[i], events[i], states[i + 1])
  }

  lemma StillLive(st: State, st': State, s: nat)
    requires HasLiveJob(st, s)
    requires forall j :: LiveJobFor(st, j, s) ==> LiveJobFor(st', j, s)
    ensures HasLiveJob(st', s)
  {
    var j :| LiveJobFor(st, j, s);
    assert LiveJobFor(st', j, s);
  }

  lemma EnqueueKeeps(st: State, s: nat, hasPriority: bool)
    requires Known(st) && AttemptsAgree(st) && s in st.sources
    ensures var st' := Enqueued(st, s, hasPriority);
            && Known(st') && AttemptsAgree(st') && HasLiveJob(st', s)
            && forall t :: HasLiveJob(st, t) ==> HasLiveJob(st', t)
  {
    var st' := Enqueued(st, s, hasPriority);
    assert LiveJobFor(st', st.nextJob, s);
    forall t | HasLiveJob(st, t) ensures HasLiveJob(st', t) { StillLive(st, st', t); }
  }

  /** A request sets one source to pending and adds a job for it. */
  lemma RequestKeeps(st: State, mid: State, s: nat, hasPriority: bool)
    requires Inv(st) && Known(mid) && s in mid.sources && mid.jobs == st.jobs && mid.running == st.running
    requires forall t :: t in mid.sources && t != s ==> t in st.sources && mid.sources[t] == st.sources[t]
    ensures Inv(Enqueued(mid, s, hasPriority))
  {
    EnqueueKeeps(mid, s, hasPriority);
    forall t | t in mid.sources && t != s && Unsettled(mid.sources[t]) ensures HasLiveJob(Enqueued(mid, s, hasPriority), t) {
      StillLive(st, Enqueued(mid, s, hasPriority), t);
    }
  }

  lemma CreateKeeps(st: State)
    requires Inv(st)
    ensures Inv(Created(st))
  {
    hide Inv, AttemptsAgree, NoneStranded, Enqueued;
    assert Known(st) by { InvKnows(st); }
    RequestKeeps(st, WithNewSource(st), st.nextSource, true);
  }

  lemma RetryKeeps(st: State, s: nat)
    requires Inv(st)
    ensures Inv(Retried(st, s))
  {
    hide Inv, AttemptsAgree, NoneStranded, Enqueued;
    assert Known(st) by { InvKnows(st); }
    if MayRetry(st, s) { RequestKeeps(st, st.(sources := st.sources[s := PENDING_PARSE]), s, false); }
  }

  lemma InvKnows(st: State)
    requires Inv(st)
    ensures Known(st)
  {
  }

  lemma PickUpKeeps(st: State, j: nat)
    requires Inv(st) && j in st.jobs && IsQueued(st.jobs[j])
    ensures Inv(PickedUp(st, j))
  {
    var st', source := PickedUp(st, j), st.jobs[j].source;
    forall s | s in st'.sources && Unsettled(st'.sources[s]) ensures HasLiveJob(st', s) {
      if s == source { assert LiveJobFor(st', j, s); } else { StillLive(st, st', s); }
    }
  }

  lemma PromoteKeeps(st: State, j: nat)
    requires Inv(st) && j in st.jobs && j !in st.running
    ensures Inv(Promoted(st, j))
  {
    var st' := Promoted(st, j);
    forall s | s in st'.sources && Unsettled(st'.sources[s]) ensures HasLiveJob(st', s) { StillLive(st, st', s); }
  }

  lemma RecoverKeeps(st: State, j: nat, givenUp: bool)
    requires Inv(st) && j in st.jobs && st.jobs[j].phase == Active && j !in st.running
    ensures Inv(Recovered(st, j, givenUp))
  {
    if givenUp {
      var st' := Recovered(st, j, givenUp);
      forall s | s in st'.sources && Unsettled(st'.sources[s]) ensures HasLiveJob(st', s) { StillLive(st, st', s); }
    } else {
      PromoteKeeps(st, j);
    }
  }

  lemma FinishKeeps(st: State, j: nat, outcome: Outcome)
    requires Inv(st) && j in st.running
    ensures Inv(Finished(st, j, outcome))
  {
    var st', source := Finished(st, j, outcome), st.running[j].source;
    forall s | s in st'.sources && Unsettled(st'.sources[s]) ensures HasLiveJob(st', s) {
      if s == source && j in st.jobs {
        assert LiveJobFor(st', j, s);
      } else {
        assert HasLiveJob(st, s);
        StillLive(st, st', s);
      }
    }
  }

  /** Failing a source keeps the invariant, also if some of its own jobs are removed. */
  lemma FailingKeeps(st: State, source: nat, gone: set<nat>)
    requires Inv(st) && source in st.sources && forall j :: j in gone && j in st.jobs ==> st.jobs[j].source == source
    ensures Inv(st.(jobs := st.jobs - gone, sources := st.sources[source := FAILED]))
  {
    var st' := st.(jobs := st.jobs - gone, sources := st.sources[source := FAILED]);
    forall s | s in st'.sources && Unsettled(st'.sources[s]) ensures HasLiveJob(st', s) {
      assert s != source && HasLiveJob(st, s);
      StillLive(st, st', s);
    }
  }

  lemma CancelKeeps(st: State, source: nat, locked: bool, st': State)
    requires Inv(st) && CancelStep(st, source, locked, st')
    ensures Inv(st')
  {
    hide Inv;
    if source in st.sources {
      if HasListed(st, source) {
        var j :| IsListed(st, j, source) &&
          st' == if st.jobs[j].phase == Active && locked then st
                 else st.(jobs := st.jobs - {j}, sources := st.sources[source := FAILED]);
        FailingKeeps(st, source, {j});
      } else {
        FailingKeeps(st, source, {});
        assert st.jobs - {} == st.jobs;
      }
    }
  }

  /** What a restart needs of the jobs that may get stuck; nothing is asked of the rest of the queue. */
  ghost predicate StuckAreSound(st: State, stuck: set<nat>) {
    && (forall s :: s in st.sources ==> s < st.nextSource)
    && (forall j :: IsStuck(st, stuck, j) ==> st.jobs[j].source in st.sources && st.jobs[j].attemptsMade < st.jobs[j].maxAttempts)
  }

  lemma RestartKeeps(st: State, stuck: set<nat>, st': State)
    requires StuckAreSound(st, stuck) && RestartStep(st, stuck, st')
    ensures Inv(st')
    ensures forall s :: s in st'.sources ==> st'.sources[s] != PARSING
  {
    forall j | j in st'.jobs
      ensures j < st'.nextJob && st'.jobs[j].source in st'.sources && st'.jobs[j].attemptsMade < st'.jobs[j].maxAttempts
    {
      if j < st.nextJob { assert IsStuck(st, stuck, j); }
    }
    forall s | s in st'.sources && Unsettled(st'.sources[s]) ensures HasLiveJob(st', s) {
      assert IsPending(st', s);
      var j :| st.nextJob <= j && JobFor(st', j, s);
      assert LiveJobFor(st', j, s);
    }
  }

  lemma StepKeepsInv(st: State, ev: Event, st': State)
    requires Inv(st) && Step(st, ev, st')
    ensures Inv(st')
  {
    hide Inv, CancelStep, RestartStep;
    match ev
    case CreateSource => CreateKeeps(st);
    case RetryParsing(s) => RetryKeeps(st, s);
    case CancelProcessing(s, locked) => CancelKeeps(st, s, locked, st');
    case Restart(stuck) =>
      InvIsSound(st, stuck);
      RestartKeeps(st, stuck, st');
    case Promote(j) =>
      DelayedRests(st, j);
      PromoteKeeps(st, j);
    case Recover(j, givenUp) => RecoverKeeps(st, j, givenUp);
    case PickUp(j) => PickUpKeeps(st, j);
    case Finish(j, outcome) => FinishKeeps(st, j, outcome);
  }

  lemma InvIsSound(st: State, stuck: set<nat>)
    requires Inv(st)
    ensures StuckAreSound(st, stuck)
  {
  }

  lemma DelayedRests(st: State, j: nat)
    requires Inv(st) && j in st.jobs && st.jobs[j].phase != Active
    ensures j !in st.running
  {
  }

  /** In every reachable state each PENDING_PARSE or PARSING source has a queued, delayed or running job. */
  lemma {:induction false} NoSourceIsEverStranded(states: seq<State>, events: seq<Event>, n: nat)
    requires IsRun(states, events) && n < |states| && states[0] == EMPTY
    ensures Inv(states[n])
  {
    if n > 0 {
      NoSourceIsEverStranded(states, events, n - 1);
      StepKeepsInv(states[n - 1], events[n - 1], states[n]);
    } else {
      assert NoneStranded(EMPTY);
    }
  }

  /** The sources that were being parsed are FAILED and may be retried; every other source is as it was. */
  ghost predicate CrashesFailed(st: State, st': State) {
    && st'.sources.Keys == st.sources.Keys
    && (forall s :: s in st.sources && st.sources[s] == PARSING ==> st'.sources[s] == FAILED && MayRetry(st', s))
    && (forall s :: s in st.sources && st.sources[s] != PARSING ==> st'.sources[s] == st.sources[s])
  }

  /** The queue holds one job for each pending source, and none for any other. */
  ghost predicate InSync(st: State) {
    && (forall s :: s in st.sources ==> (st.sources[s] == PENDING_PARSE <==> HasJob(st, s)))
    && (forall i, j :: i in st.jobs && j in st.jobs && st.jobs[i].source == st.jobs[j].source ==> i == j)
  }

  /**
   A restart restores the invariant from any state, also one whose queue lost or duplicated jobs. Queue and database are
   in sync afterwards exactly when every active job could be moved to failed.
   */
  lemma RestartReconciles(st: State, stuck: set<nat>, st': State)
    requires StuckAreSound(st, stuck) && RestartStep(st, stuck, st')
    ensures Inv(st')
    ensures forall s :: s in st'.sources ==> st'.sources[s] != PARSING
    ensures InSync(st') <==> forall j :: !IsStuck(st, stuck, j)
    ensures CrashesFailed(st, st')
  {
    RestartKeeps(st, stuck, st');
    if j :| IsStuck(st, stuck, j) {
      var s := st.jobs[j].source;
      assert JobFor(st', j, s) && s in st'.sources;
      if st'.sources[s] == PENDING_PARSE {
        assert IsPending(st', s);
        var i :| st.nextJob <= i && JobFor(st', i, s);
        assert i != j;
      }
      assert !InSync(st');
    } else {
      AllNewInSync(st, stuck, st');
    }
  }

  lemma AllNewInSync(st: State, stuck: set<nat>, st': State)
    requires StuckAreSound(st, stuck) && RestartStep(st, stuck, st') && forall j :: !IsStuck(st, stuck, j)
    ensures InSync(st')
  {
    forall j | j in st'.jobs ensures st.nextJob <= j && IsPending(st', st'.jobs[j].source) { }
    forall s | s in st'.sources ensures st'.sources[s] == PENDING_PARSE <==> HasJob(st', s) {
      if st'.sources[s] == PENDING_PARSE {
        assert IsPending(st', s);
        var j :| st.nextJob <= j && JobFor(st', j, s);
        assert HasJob(st', s);
      }
    }
  }

  // ---------------------------------------------------------------- what changes a status

  /** A job that has all of its attempts before it. */
  predicate FreshJobFor(st: State, j: nat, source: nat) {
    JobFor(st, j, source) && st.jobs[j].attemptsMade == 0 && st.jobs[j].maxAttempts == 2
    && (st.jobs[j].phase == Waiting || st.jobs[j].phase == Prioritized)
  }

  /** What a step does to source `s`, by its new status. */
  ghost predicate Explained(st: State, ev: Event, st': State, s: nat)
    requires s in st'.sources
  {
    var was := if s in st.sources then Some(st.sources[s]) else None;
    if was == Some(st'.sources[s]) then true
    else match st'.sources[s]
    case PENDING_PARSE => (ev == CreateSource && was == None) || (ev == RetryParsing(s) && was == Some(FAILED))
    case PARSING => was == Some(PENDING_PARSE) && ev.PickUp? && JobFor(st, ev.job, s)
    case PARSED => ev.Finish? && ev.outcome != FailedBeforeParsed && ev.job in st.running && st.running[ev.job].source == s
    case FAILED =>
      || (ev.CancelProcessing? && ev.source == s)
      || (ev.Restart? && was == Some(PARSING))
      || (ev.Finish? && ev.outcome != Succeeded && ev.job in st.running && st.running[ev.job].source == s
          && st.running[ev.job].attemptsMade + 1 >= st.running[ev.job].maxAttempts)
  }

  /**
   No source is lost, and a status only changes for its reason: PENDING_PARSE by a new source or by retrying a FAILED one,
   PARSING by picking up a pending one's job, PARSED by an attempt that parsed it, FAILED by a cancellation, a restart
   that finds it PARSING, or the failure of a last attempt.
   */
  lemma StatusChangesForAReason(st: State, ev: Event, st': State, s: nat)
    requires Known(st) && Step(st, ev, st')
    ensures s in st.sources ==> s in st'.sources
    ensures s in st'.sources ==> Explained(st, ev, st', s)
  {
  }

  /** A new source is pending with a fresh job; so is a failed or pending one after a retry, with one more. */
  lemma RequestsQueueAJob(st: State, s: nat)
    requires Known(st)
    ensures var st' := Created(st);
            && st.nextSource !in st.sources && st'.sources == st.sources[st.nextSource := PENDING_PARSE]
            && st.nextJob !in st.jobs && st'.jobs.Keys == st.jobs.Keys + {st.nextJob}
            && FreshJobFor(st', st.nextJob, st.nextSource) && st'.jobs[st.nextJob].phase == Prioritized
    ensures s in st.sources && (st.sources[s] == FAILED || st.sources[s] == PENDING_PARSE) ==>
              var st' := Retried(st, s);
              && st'.sources == st.sources[s := PENDING_PARSE]
              && st.nextJob !in st.jobs && st'.jobs.Keys == st.jobs.Keys + {st.nextJob}
              && FreshJobFor(st', st.nextJob, s) && st'.jobs[st.nextJob].phase == Waiting
    ensures s !in st.sources || st.sources[s] == PARSED || st.sources[s] == PARSING ==> Retried(st, s) == st
  {
  }

  /** The source has a job in that phase. */
  ghost predicate HasJobIn(st: State, s: nat, phase: JobPhase) {
    exists j :: j in st.jobs && st.jobs[j].source == s && st.jobs[j].phase == phase
  }

  /** `st'` lost a job of the source in that phase. */
  ghost predicate LostJobIn(st: State, s: nat, phase: JobPhase, st': State) {
    exists j :: j in st.jobs && st.jobs[j].source == s && st.jobs[j].phase == phase && st'.jobs == st.jobs - {j}
  }

  /**
   A cancellation fails the source and takes one job of it from the queue, an active one before a waiting one before a
   delayed one; prioritised jobs stay. If an active job is locked the call fails and changes nothing.
   */
  lemma CancellationFails(st: State, s: nat, locked: bool, st': State)
    requires CancelStep(st, s, locked, st') && s in st.sources
    ensures HasJobIn(st, s, Active) && locked ==> st' == st
    ensures !(HasJobIn(st, s, Active) && locked) ==> st'.sources == st.sources[s := FAILED]
    ensures HasJobIn(st, s, Active) && !locked ==> LostJobIn(st, s, Active, st')
    ensures !HasJobIn(st, s, Active) && HasJobIn(st, s, Waiting) ==> LostJobIn(st, s, Waiting, st')
    ensures !HasJobIn(st, s, Active) && !HasJobIn(st, s, Waiting) && HasJobIn(st, s, Delayed) ==> LostJobIn(st, s, Delayed, st')
    ensures !HasJobIn(st, s, Active) && !HasJobIn(st, s, Waiting) && !HasJobIn(st, s, Delayed) ==> st'.jobs == st.jobs
    ensures st'.running == st.running
  {
    forall j | j in st.jobs && st.jobs[j].source == s && st.jobs[j].phase != Prioritized ensures IsListed(st, j, s) { }
    if HasListed(st, s) {
      var j :| IsFound(st, j, s) &&
        st' == if st.jobs[j].phase == Active && locked then st
               else st.(jobs := st.jobs - {j}, sources := st.sources[s := FAILED]);
      assert HasJobIn(st, s, st.jobs[j].phase);
    }
  }

  /** A delayed or stalled job joins the queue among those of its priority; one that stalled too often leaves it. */
  lemma JobReturnsOrGoes(st: State, j: nat, givenUp: bool)
    requires j in st.jobs
    ensures Promoted(st, j).jobs[j] == st.jobs[j].(phase := if st.jobs[j].hasPriority then Prioritized else Waiting)
    ensures forall i :: i in st.jobs && i != j ==> Promoted(st, j).jobs[i] == st.jobs[i]
    ensures Recovered(st, j, givenUp).jobs == if givenUp then st.jobs - {j} else Promoted(st, j).jobs
    ensures Promoted(st, j) == st.(jobs := Promoted(st, j).jobs)
    ensures Recovered(st, j, givenUp) == st.(jobs := Recovered(st, j, givenUp).jobs)
  {
  }

  /** A picked-up job of a pending source is running and its source PARSING; a settled source's job is gone. */
  lemma PickUpStartsOrDrops(st: State, j: nat)
    requires Inv(st) && j in st.jobs && IsQueued(st.jobs[j])
    ensures var (st', s) := (PickedUp(st, j), st.jobs[j].source);
            if st.sources[s] == PENDING_PARSE || st.sources[s] == PARSING then
              && st'.sources == st.sources[s := PARSING]
              && j in st'.running && j in st'.jobs && st'.jobs[j] == st'.running[j] == st.jobs[j].(phase := Active)
            else st'.sources == st.sources && j !in st'.jobs && st'.running == st.running
  {
  }

  /** How an attempt ends: the source is PARSED, or waits with one attempt less, or is FAILED after the last one. */
  lemma AttemptEnds(st: State, j: nat, outcome: Outcome)
    requires Inv(st) && j in st.running
    ensures var (st', job) := (Finished(st, j, outcome), st.running[j]);
            && j !in st'.running
            && (outcome == Succeeded ==> st'.sources == st.sources[job.source := PARSED] && j !in st'.jobs)
            && (outcome != Succeeded && job.attemptsMade + 1 >= job.maxAttempts ==>
                  st'.sources == st.sources[job.source := FAILED] && j !in st'.jobs)
            && (outcome == FailedBeforeParsed && job.attemptsMade + 1 < job.maxAttempts ==> st'.sources == st.sources)
            && (outcome == FailedAfterParsed && job.attemptsMade + 1 < job.maxAttempts ==>
                  st'.sources == st.sources[job.source := PARSED])
            && (outcome != Succeeded && job.attemptsMade + 1 < job.maxAttempts && j in st.jobs ==>
                  j in st'.jobs && st'.jobs[j] == st.jobs[j].(attemptsMade := job.attemptsMade + 1, phase := Delayed))
  {
    assert st.sources[st.running[j].source := st.sources[st.running[j].source]] == st.sources;
  }

  // ---------------------------------------------------------------- progress

  /** What is left to do for job `j`: each attempt costs three, paid by its promotion, its pick-up and its end. */
  ghost function Work(st: State, j: nat): nat
    requires AttemptsAgree(st)
  {
    if j in st.jobs then
      var left := st.jobs[j].maxAttempts - st.jobs[j].attemptsMade;
      if IsQueued(st.jobs[j]) then 3 * left - 1
      else if j in st.running then 3 * left - 2
      else 3 * left
    else if j in st.running then 1 else 0
  }

  ghost function WorkBelow(st: State, n: nat): nat
    requires AttemptsAgree(st)
  {
    if n == 0 then 0 else WorkBelow(st, n - 1) + Work(st, n - 1)
  }

  /** The attempts that remain, over the whole queue. */
  ghost function Remaining(st: State): nat
    requires AttemptsAgree(st)
  {
    WorkBelow(st, st.nextJob)
  }

  lemma {:induction false} WorkFalls(st: State, st': State, j: nat, n: nat)
    requires AttemptsAgree(st) && AttemptsAgree(st')
    requires Work(st', j) < Work(st, j)
    requires forall i: nat :: i != j ==> Work(st', i) == Work(st, i)
    ensures WorkBelow(st', n) <= WorkBelow(st, n)
    ensures j < n ==> WorkBelow(st', n) < WorkBelow(st, n)
  {
    if n > 0 { WorkFalls(st, st', j, n - 1); }
  }

  /** What workers and the queue do by themselves, without a request. */
  predicate IsWorkerEvent(ev: Event) { ev.PickUp? || ev.Finish? || ev.Promote? || ev.Recover? }

  /** Every step of a worker lowers the remaining work. */
  lemma WorkerStepFalls(st: State, ev: Event, st': State)
    requires Inv(st) && IsWorkerEvent(ev) && Step(st, ev, st')
    ensures Inv(st') && Remaining(st') < Remaining(st)
  {
    StepKeepsInv(st, ev, st');
    JobWorkFalls(st, ev, st');
    WorkFalls(st, st', ev.job, st.nextJob);
  }

  lemma JobWorkFalls(st: State, ev: Event, st': State)
    requires Inv(st) && Inv(st') && IsWorkerEvent(ev) && Step(st, ev, st')
    ensures st'.nextJob == st.nextJob && ev.job < st.nextJob
    ensures Work(st', ev.job) < Work(st, ev.job)
    ensures forall i: nat :: i != ev.job ==> Work(st', i) == Work(st, i)
  {
    hide NoneStranded;
    match ev
    case PickUp(j) => PickUpWork(st, j);
    case Finish(j, outcome) => FinishWork(st, j, outcome);
    case Promote(j) => PromoteWork(st, j);
    case Recover(j, givenUp) => RecoverWork(st, j, givenUp);
  }

  /** Work is left the same but for job `j`, which has less. */
  ghost predicate LessWork(st: State, st': State, j: nat)
    requires AttemptsAgree(st) && AttemptsAgree(st')
  {
    Work(st', j) < Work(st, j) && forall i: nat :: i != j ==> Work(st', i) == Work(st, i)
  }

  lemma PickUpWork(st: State, j: nat)
    requires AttemptsAgree(st) && j in st.jobs && IsQueued(st.jobs[j]) && st.jobs[j].source in st.sources
    requires AttemptsAgree(PickedUp(st, j))
    ensures LessWork(st, PickedUp(st, j), j)
  {
  }

  lemma FinishWork(st: State, j: nat, outcome: Outcome)
    requires AttemptsAgree(st) && j in st.running && st.running[j].source in st.sources
    requires AttemptsAgree(Finished(st, j, outcome))
    ensures LessWork(st, Finished(st, j, outcome), j)
  {
  }

  lemma PromoteWork(st: State, j: nat)
    requires AttemptsAgree(st) && j in st.jobs && !IsQueued(st.jobs[j]) && j !in st.running
    requires AttemptsAgree(Promoted(st, j))
    ensures LessWork(st, Promoted(st, j), j)
  {
  }

  lemma RecoverWork(st: State, j: nat, givenUp: bool)
    requires AttemptsAgree(st) && j in st.jobs && st.jobs[j].phase == Active && j !in st.running
    requires AttemptsAgree(Recovered(st, j, givenUp))
    ensures LessWork(st, Recovered(st, j, givenUp), j)
  {
  }

  lemma {:induction false} WorkZero(st: State, n: nat, j: nat)
    requires AttemptsAgree(st) && j < n && WorkBelow(st, n) == 0
    ensures j !in st.jobs && j !in st.running
  {
    if j < n - 1 { WorkZero(st, n - 1, j); }
  }

  ghost predicate Settled(st: State) {
    forall s :: s in st.sources ==> st.sources[s] == PARSED || st.sources[s] == FAILED
  }

  /** While some source is unsettled a worker, even one working on one job at a time, or the queue has a step to take. */
  lemma UnsettledCanMove(st: State) returns (ev: Event, st': State)
    requires Inv(st) && !Settled(st)
    ensures IsWorkerEvent(ev) && Step(st, ev, st') && (ev.job in st.jobs || ev.job in st.running)
  {
    var s :| s in st.sources && Unsettled(st.sources[s]);
    var j :| LiveJobFor(st, j, s);
    if st.jobs[j].phase == Active {
      ev, st' := Finish(j, Succeeded), Finished(st, j, Succeeded);
    } else if st.jobs[j].phase == Delayed {
      ev, st' := Promote(j), Promoted(st, j);
    } else {
      ev, st' := PickUp(j), PickedUp(st, j);
    }
  }

  lemma {:induction false} WorkerRunFalls(states: seq<State>, events: seq<Event>, n: nat)
    requires IsRun(states, events) && n < |states|
    requires Inv(states[0]) && forall i :: 0 <= i < |events| ==> IsWorkerEvent(events[i])
    ensures Inv(states[n]) && Remaining(states[n]) + n <= Remaining(states[0])
  {
    if n > 0 {
      WorkerRunFalls(states, events, n - 1);
      WorkerStepFalls(states[n - 1], events[n - 1], states[n]);
    }
  }

  /**
   With no new request, workers can take at most as many steps as there is remaining work, and when that many have
   been taken, or none is possible any more, every source is PARSED or FAILED.
   */
  lemma EverySourceIsSettled(states: seq<State>, events: seq<Event>)
    requires IsRun(states, events)
    requires Inv(states[0]) && forall i :: 0 <= i < |events| ==> IsWorkerEvent(events[i])
    ensures |events| <= Remaining(states[0])
    ensures |events| == Remaining(states[0]) ==> Settled(states[|events|])
    ensures (forall ev, st' :: IsWorkerEvent(ev) ==> !Step(states[|events|], ev, st')) ==> Settled(states[|events|])
  {
    hide Inv, Step, Settled;
    var last := states[|events|];
    WorkerRunFalls(states, events, |events|);
    if !Settled(last) {
      var ev, st' := UnsettledCanMove(last);
      WorkerStepFalls(last, ev, st');
    }
  }

  // ---------------------------------------------------------------- what a cancellation does not stop

  ghost predicate AttemptRunning(st: State, s: nat) {
    exists j :: j in st.running && st.running[j].source == s
  }

  ghost predicate IsWorkerRun(states: seq<State>, events: seq<Event>) {
    IsRun(states, events) && forall i :: 0 <= i < |events| ==> IsWorkerEvent(events[i])
  }

  lemma FailedKept(st: State, ev: Event, st': State, s: nat)
    requires IsWorkerEvent(ev) && Step(st, ev, st')
    requires s in st.sources && st.sources[s] == FAILED && !AttemptRunning(st, s)
    ensures s in st'.sources && st'.sources[s] == FAILED && !AttemptRunning(st', s)
  {
    forall j | j in st'.running ensures st'.running[j].source != s {
      if j in st.running { assert st.running[j].source != s; }
    }
  }

  lemma {:induction false} FailedKeptInRuns(states: seq<State>, events: seq<Event>, n: nat, s: nat)
    requires IsWorkerRun(states, events) && n < |states|
    requires s in states[0].sources && states[0].sources[s] == FAILED && !AttemptRunning(states[0], s)
    ensures s in states[n].sources && states[n].sources[s] == FAILED && !AttemptRunning(states[n], s)
  {
    if n > 0 {
      FailedKeptInRuns(states, events, n - 1, s);
      FailedKept(states[n - 1], events[n - 1], states[n], s);
    }
  }

  ghost predicate StaysFailed(states: seq<State>, s: nat) {
    forall n :: 0 <= n < |states| ==> s in states[n].sources && states[n].sources[s] == FAILED
  }

  /**
   A FAILED source, a cancelled one included, stays FAILED in every run of the workers exactly when no attempt on it is
   running: an attempt that was already running still writes PARSED.
   */
  lemma FailedStaysFailedIffNoAttemptRuns(st: State, s: nat)
    requires Known(st) && s in st.sources && st.sources[s] == FAILED
    ensures (forall states: seq<State>, events: seq<Event> :: IsWorkerRun(states, events) && states[0] == st ==> StaysFailed(states, s))
            <==> !AttemptRunning(st, s)
  {
    if AttemptRunning(st, s) {
      var j :| j in st.running && st.running[j].source == s;
      var st' := Finished(st, j, Succeeded);
      var states, events := [st, st'], [Finish(j, Succeeded)];
      assert IsWorkerRun(states, events) && states[1].sources[s] == PARSED;
      assert !StaysFailed(states, s);
    } else {
      forall states: seq<State>, events: seq<Event> | IsWorkerRun(states, events) && states[0] == st ensures StaysFailed(states, s) {
        forall n | 0 <= n < |states| ensures s in states[n].sources && states[n].sources[s] == FAILED {
          FailedKeptInRuns(states, events, n, s);
        }
      }
    }
  }

  /** The failure in one run: a source is created, picked up and cancelled, and its attempt then ends well. */
  lemma CancelledThenParsed() returns (states: seq<State>)
    ensures IsRun(states, [CreateSource, PickUp(0), CancelProcessing(0, false), Finish(0, Succeeded)])
    ensures states[0] == EMPTY && states[3].sources == map[0 := FAILED] && states[4].sources == map[0 := PARSED]
  {
    var created := Created(EMPTY);
    var parsing := PickedUp(created, 0);
    var cancelled := parsing.(jobs := parsing.jobs - {0}, sources := parsing.sources[0 := FAILED]);
    var parsed := Finished(cancelled, 0, Succeeded);
    assert IsListed(parsing, 0, 0);
    states := [EMPTY, created, parsing, cancelled, parsed];
  }

  /**
   Cancelling a source whose job still waits with a priority marks the source FAILED and leaves the job, which its
   pick-up then drops.
   */
  lemma PrioritisedJobOutlivesCancel(st: State, s: nat, j: nat, locked: bool, st': State)
    requires Known(st) && JobFor(st, j, s) && forall i :: JobFor(st, i, s) ==> st.jobs[i].phase == Prioritized
    requires CancelStep(st, s, locked, st')
    ensures st'.sources[s] == FAILED && j in st'.jobs
    ensures Step(st', PickUp(j), PickedUp(st', j))
    ensures j !in PickedUp(st', j).jobs && PickedUp(st', j).sources == st'.sources && PickedUp(st', j).running == st'.running
  {
  }

  /**
   When the parse succeeds but requesting the consolidation fails, and an attempt is left, the job is delayed; once due,
   its pick-up drops it, so the consolidation is not requested again.
   */
  lemma ConsolidationNotRequestedAgain(st: State, j: nat)
    requires Inv(st) && j in st.running && j in st.jobs && !IsFinalAttempt(st.running[j])
    ensures var st1 := Finished(st, j, FailedAfterParsed);
            && j in st1.jobs && st1.jobs[j].phase == Delayed && st1.sources[st1.jobs[j].source] == PARSED
            && var st2 := PickedUp(Promoted(st1, j), j); j !in st2.jobs && j !in st2.running && st2.sources == st1.sources
  {
    FinishKeeps(st, j, FailedAfterParsed);
  }

  // ---------------------------------------------------------------- the service and its worker

  class CurriculumPipeline {
    var sources: map<nat, SourceStatus>
    var jobs: map<nat, Job>
    var running: map<nat, Job>
    var nextSource: nat
    var nextJob: nat

    ghost function Now(): State
      reads this
    {
      State(sources, jobs, running, nextSource, nextJob)
    }

    constructor ()
      ensures Now() == EMPTY && Inv(Now())
    {
      sources, jobs, running, nextSource, nextJob := map[], map[], map[], 0, 0;
    }

    method AddJob(source: nat, hasPriority: bool)
      modifies this`jobs, this`nextJob
      ensures Now() == Enqueued(old(Now()), source, hasPriority)
    {
      jobs := jobs[nextJob := NewJob(source, hasPriority)];
      nextJob := nextJob + 1;
    }

    method CreateNewSource() returns (id: nat)
      requires Inv(Now())
      modifies this
      ensures Step(old(Now()), CreateSource, Now()) && Inv(Now())
      ensures id !in old(sources) && id in sources && sources[id] == PENDING_PARSE
    {
      id := nextSource;
      CreateKeeps(Now());
      sources := sources[id := PENDING_PARSE];
      nextSource := nextSource + 1;
      AddJob(id, true);
    }

    method RetrySourceParsing(source: nat) returns (ok: bool)
      requires Inv(Now())
      modifies this
      ensures Step(old(Now()), RetryParsing(source), Now()) && Inv(Now())
      ensures ok <==> MayRetry(old(Now()), source)
    {
      RetryKeeps(Now(), source);
      ok := source in sources && (sources[source] == FAILED || sources[source] == PENDING_PARSE);
      if ok {
        sources := sources[source := PENDING_PARSE];
        AddJob(source, false);
      }
    }

    /** `jobs.find(j => j.data.sourceId === id)` over the active, then the waiting, then the delayed jobs. */
    method FindJob(source: nat) returns (found: Option<nat>)
      requires Known(Now())
      ensures found.Some? ==> IsFound(Now(), found.value, source)
      ensures found.None? ==> !HasListed(Now(), source)
    {
      var phases := [Active, Waiting, Delayed];
      for p := 0 to |phases|
        invariant forall j :: JobFor(Now(), j, source) ==> jobs[j].phase !in phases[..p]
        invariant forall j :: IsListed(Now(), j, source) ==> SearchRank(jobs[j].phase) >= p
      {
        for j := 0 to nextJob
          invariant forall i: nat :: JobFor(Now(), i, source) && i < j ==> jobs[i].phase != phases[p]
        {
          if j in jobs && jobs[j].phase == phases[p] && jobs[j].source == source { return Some(j); }
        }
      }
      assert phases[..|phases|] == phases;
      assert phases[0] == Active && phases[1] == Waiting && phases[2] == Delayed;
      found := None;
    }

    method CancelSourceProcessing(source: nat, locked: bool) returns (ok: bool)
      requires Inv(Now())
      modifies this
      ensures Step(old(Now()), CancelProcessing(source, locked), Now()) && Inv(Now())
      ensures ok ==> source in sources && sources[source] == FAILED
      ensures !ok ==> Now() == old(Now())
    {
      hide AttemptsAgree, NoneStranded;
      if source !in sources { return false; }
      var found := FindJob(source);
      if found.Some? {
        if jobs[found.value].phase == Active && locked { return false; }
        jobs := jobs - {found.value};
      }
      sources := sources[source := FAILED];
      ok := true;
      CancelKeeps(old(Now()), source, locked, Now());
    }

    /** A worker takes a job from the queue. */
    method PickUpJob(job: nat)
      requires Inv(Now()) && job in jobs && IsQueued(jobs[job])
      modifies this
      ensures Step(old(Now()), PickUp(job), Now()) && Inv(Now())
    {
      PickUpKeeps(Now(), job);
      var source := jobs[job].source;
      var status := sources[source];
      if status == FAILED || status == PARSED {
        jobs := jobs - {job};
      } else {
        jobs := jobs[job := jobs[job].(phase := Active)];
        running := running[job := jobs[job]];
        sources := sources[source := PARSING];
      }
    }

    /** The parse, then the request for consolidation; a failure is final on the last attempt. */
    method FinishAttempt(job: nat, outcome: Outcome)
      requires Inv(Now()) && job in running
      modifies this
      ensures Step(old(Now()), Finish(job, outcome), Now()) && Inv(Now())
    {
      hide Inv;
      FinishKeeps(Now(), job, outcome);
      InvKnows(Now());
      var attempt := running[job];
      running := running - {job};
      if outcome != FailedBeforeParsed { sources := sources[attempt.source := PARSED]; }
      if outcome == Succeeded {
        jobs := jobs - {job};
      } else if attempt.attemptsMade + 1 >= attempt.maxAttempts {
        sources := sources[attempt.source := FAILED];
        jobs := jobs - {job};
      } else if job in jobs {
        jobs := jobs[job := attempt.(attemptsMade := attempt.attemptsMade + 1, phase := Delayed)];
      }
      assert Now() == Finished(old(Now()), job, outcome);
    }

    /**
     `moveToFailed` on every active job: failed for good, or delayed when it has an attempt left. A move that throws is
     ignored and leaves its job as it is.
     */
    method FailStaleActive(stuck: set<nat>)
      requires forall j :: j in jobs ==> j < nextJob
      modifies this`jobs
      ensures forall j :: j in jobs ==> j < nextJob
      ensures forall j :: j in jobs && jobs[j].phase == Active ==> IsStuck(old(Now()), stuck, j) && jobs[j] == old(jobs)[j]
      ensures forall j :: IsStuck(old(Now()), stuck, j) ==> j in jobs && jobs[j] == old(jobs)[j]
    {
      for j := 0 to nextJob
        invariant forall i :: i in jobs ==> i < nextJob
        invariant forall i: nat :: j <= i ==> (i in jobs <==> i in old(jobs)) && (i in jobs ==> jobs[i] == old(jobs)[i])
        invariant forall i :: i in jobs && i < j && jobs[i].phase == Active ==> IsStuck(old(Now()), stuck, i) && jobs[i] == old(jobs)[i]
        invariant forall i :: IsStuck(old(Now()), stuck, i) ==> i in jobs && jobs[i] == old(jobs)[i]
      {
        if j in jobs && jobs[j].phase == Active && j !in stuck {
          if jobs[j].attemptsMade + 1 < jobs[j].maxAttempts {
            jobs := jobs[j := jobs[j].(attemptsMade := jobs[j].attemptsMade + 1, phase := Delayed)];
          } else {
            jobs := jobs - {j};
          }
        }
      }
    }

    /** `drain(true)`: every job that is not active leaves the queue. */
    method Drain()
      modifies this`jobs
      ensures jobs == map j | j in old(jobs) && old(jobs)[j].phase == Active :: old(jobs)[j]
    {
      jobs := map j | j in jobs && jobs[j].phase == Active :: jobs[j];
    }

    /** One new job for each pending source. */
    method RequeuePending(ghost before: State, ghost stuck: set<nat>)
      requires running == map[] && Requeued(before, stuck, Now(), 0, nextJob)
      requires forall s :: s in sources ==> s < nextSource
      modifies this`jobs, this`nextJob
      ensures Requeued(before, stuck, Now(), nextSource, old(nextJob)) && nextJob >= old(nextJob)
    {
      hide Requeued;
      for s := 0 to nextSource
        invariant nextJob >= old(nextJob) && Requeued(before, stuck, Now(), s, old(nextJob))
      {
        if s in sources && sources[s] == PENDING_PARSE {
          RequeueOne(before, stuck, Now(), s, old(nextJob));
          AddJob(s, true);
        } else {
          RequeueSkip(before, stuck, Now(), s, old(nextJob));
        }
      }
    }

    /** Startup: fail the jobs a crash left active, fail the PARSING sources, drain, and queue the pending ones again. */
    method OnModuleInit(stuck: set<nat>)
      requires StuckAreSound(Now(), stuck)
      requires forall j :: j in jobs ==> j < nextJob
      modifies this
      ensures Step(old(Now()), Restart(stuck), Now()) && Inv(Now())
      ensures InSync(Now()) <==> forall j :: !IsStuck(old(Now()), stuck, j)
      ensures CrashesFailed(old(Now()), Now())
    {
      hide Inv, InSync, Requeued, CrashesFailed;
      running := map[];
      FailStaleActive(stuck);
      sources := map s | s in sources :: AfterCrash(sources[s]);
      Drain();
      OnlyStuckLeft(old(Now()), stuck, Now());
      RequeuePending(old(Now()), stuck);
      RestartReconciles(old(Now()), stuck, Now());
    }
  }

  lemma OnlyStuckLeft(before: State, stuck: set<nat>, st: State)
    requires forall j :: j in st.jobs ==> j < st.nextJob && IsStuck(before, stuck, j) && st.jobs[j] == before.jobs[j]
    requires forall j :: IsStuck(before, stuck, j) ==> j in st.jobs
    ensures Requeued(before, stuck, st, 0, st.nextJob)
  {
  }

  lemma RequeueOne(before: State, stuck: set<nat>, st: State, s: nat, first: nat)
    requires Requeued(before, stuck, st, s, first) && IsPending(st, s) && first <= st.nextJob
    ensures Requeued(before, stuck, Enqueued(st, s, true), s + 1, first)
  {
    var st' := Enqueued(st, s, true);
    assert JobFor(st', st.nextJob, s);
    forall t: nat | IsPending(st', t) && t < s + 1 ensures HasNewJob(st', t, first) {
      if t < s {
        assert IsPending(st, t);
        var j :| first <= j && JobFor(st, j, t);
        assert JobFor(st', j, t);
      }
    }
  }

  lemma RequeueSkip(before: State, stuck: set<nat>, st: State, s: nat, first: nat)
    requires Requeued(before, stuck, st, s, first) && !IsPending(st, s)
    ensures Requeued(before, stuck, st, s + 1, first)
  {
  }
}
