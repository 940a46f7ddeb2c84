/** When an assessment may be started and submitted (src/assessments/assessment-deadline.util.ts). */
module Deadlines {
  import opened Prelude

  const TIMER_GRACE_MINUTES := 2
  const MINUTE_MS := 60000
  const DAY_MS := 86400000

  datatype SubmissionStatus = STARTED | SUBMITTED | GRADED

  /** Instants are milliseconds. */
  datatype Policy = Policy(
    dueDate: Option<int>,
    allowLateSubmissionAfterDue: bool,
    isTimed: bool,
    duration: Option<int>,
    allowLateSubmissionAfterTimer: bool)

  /** The last millisecond of the due date's UTC day. */
  function DueDateDeadline(dueDate: int): (d: int)
    ensures dueDate <= d < dueDate + DAY_MS && (d + 1) % DAY_MS == 0
  {
    dueDate / DAY_MS * DAY_MS + 86399999
  }

  predicate IsPastDueDate(dueDate: Option<int>, now: int) {
    dueDate.Some? && now > DueDateDeadline(dueDate.value)
  }

  /** A missing or zero duration never expires. */
  predicate IsTimerExpired(startedAt: Option<int>, duration: Option<int>, now: int) {
    && startedAt.Some? && duration.Some? && duration.value != 0
    && now > startedAt.value + duration.value * MINUTE_MS + TIMER_GRACE_MINUTES * MINUTE_MS
  }

  datatype StartResult = StartAllowed | AlreadySubmitted | StartPastDue

  function EvaluateStartDeadline(p: Policy, status: Option<SubmissionStatus>, now: int): StartResult {
    if status == Some(SUBMITTED) || status == Some(GRADED) then AlreadySubmitted
    else if !IsPastDueDate(p.dueDate, now) then StartAllowed
    else if p.allowLateSubmissionAfterDue then StartAllowed
    else if status == Some(STARTED) then StartAllowed
    else StartPastDue
  }

  datatype Refusal = PastDue | TimerExpired

  datatype SubmitResult = SubmitResult(refusal: Option<Refusal>, isLateDue: bool, isLateTimer: bool, isAutoSubmitted: bool)

  function EvaluateSubmitDeadline(p: Policy, startedAt: Option<int>, now: int, isAutoSubmitRequest: bool): SubmitResult {
    var pastDue := IsPastDueDate(p.dueDate, now);
    var timerExpired := p.isTimed && IsTimerExpired(startedAt, p.duration, now);
    var isAutoSubmitted := isAutoSubmitRequest && timerExpired;
    var startedOnTime := startedAt.Some? && p.dueDate.Some? && startedAt.value <= DueDateDeadline(p.dueDate.value);
    if pastDue && !p.allowLateSubmissionAfterDue && !startedOnTime then
      SubmitResult(Some(PastDue), pastDue, timerExpired, isAutoSubmitted)
    else if timerExpired && !p.allowLateSubmissionAfterTimer && !isAutoSubmitted then
      SubmitResult(Some(TimerExpired), pastDue, timerExpired, false)
    else
      SubmitResult(None, pastDue, timerExpired, isAutoSubmitted)
  }

  // ---------------------------------------------------------------- the start gate gives the submit gate what it needs

  /** Late submission is allowed, or the start was stamped by the deadline. */
  predicate StartedInTime(p: Policy, startedAt: int) {
    p.allowLateSubmissionAfterDue || !IsPastDueDate(p.dueDate, startedAt)
  }

  /**
   A first start is checked at one clock reading and stamped at a later one. Its submission is refused for the due
   date, at some time, exactly when the deadline passed between the two readings and lateness is not allowed.
   */
  lemma AcceptedStartAndDueDate(p: Policy, checkedAt: int, stampedAt: int)
    requires EvaluateStartDeadline(p, None, checkedAt) == StartAllowed && checkedAt <= stampedAt
    ensures (exists now, auto :: EvaluateSubmitDeadline(p, Some(stampedAt), now, auto).refusal == Some(PastDue))
            <==> !StartedInTime(p, stampedAt)
  {
    if !StartedInTime(p, stampedAt) {
      assert EvaluateSubmitDeadline(p, Some(stampedAt), stampedAt, false).refusal == Some(PastDue);
    }
  }

  /** With a single reading the accepted start never meets a due-date refusal. */
  lemma AcceptedStartNeverPastDue(p: Policy, startedAt: int, now: int, auto: bool)
    requires EvaluateStartDeadline(p, None, startedAt) == StartAllowed
    ensures StartedInTime(p, startedAt)
    ensures EvaluateSubmitDeadline(p, Some(startedAt), now, auto).refusal != Some(PastDue)
  {
  }

  /** The failure in one input: a due date of day 0, checked in its last millisecond and stamped one later. */
  lemma StampedOneMillisecondLate()
    ensures var p := Policy(Some(0), false, false, None, false);
            && EvaluateStartDeadline(p, None, 86399999) == StartAllowed
            && EvaluateSubmitDeadline(p, Some(86400000), 86400000, false).refusal == Some(PastDue)
  {
  }

  /** Started in time, a submission is refused exactly when it is timed, past duration and grace, late and not automatic. */
  lemma RefusedExactlyByTimer(p: Policy, startedAt: int, now: int, auto: bool)
    requires StartedInTime(p, startedAt)
    ensures EvaluateSubmitDeadline(p, Some(startedAt), now, auto).refusal.Some? <==>
            && p.isTimed && p.duration.Some? && p.duration.value != 0
            && now > startedAt + (p.duration.value + TIMER_GRACE_MINUTES) * MINUTE_MS
            && !p.allowLateSubmissionAfterTimer && !auto
  {
  }

  /** What is allowed at some time was allowed at every earlier time, and was no later then. */
  lemma AllowedEarlier(p: Policy, startedAt: Option<int>, earlier: int, now: int, auto: bool)
    requires earlier <= now && EvaluateSubmitDeadline(p, startedAt, now, auto).refusal == None
    ensures var early := EvaluateSubmitDeadline(p, startedAt, earlier, auto);
            var late := EvaluateSubmitDeadline(p, startedAt, now, auto);
            early.refusal == None && (early.isLateDue ==> late.isLateDue) && (early.isLateTimer ==> late.isLateTimer)
  {
  }

  // ---------------------------------------------------------------- what the gates answer

  /** The UTC day of the due date is over. */
  predicate DayIsOver(dueDate: Option<int>, now: int) { dueDate.Some? && now >= (dueDate.value / 86400000 + 1) * 86400000 }

  /** The duration and two minutes have passed since the start. */
  predicate TimeIsUp(p: Policy, startedAt: Option<int>, now: int) {
    && p.isTimed && startedAt.Some? && p.duration.Some? && p.duration.value != 0
    && now > startedAt.value + (p.duration.value + 2) * 60000
  }

  /** A start is refused to whoever submitted, and to a new student once the due day is over, unless lateness is allowed. */
  lemma StartAnswers(p: Policy, status: Option<SubmissionStatus>, now: int)
    ensures EvaluateStartDeadline(p, status, now) == AlreadySubmitted <==> status == Some(SUBMITTED) || status == Some(GRADED)
    ensures EvaluateStartDeadline(p, status, now) == StartPastDue <==>
              status == None && DayIsOver(p.dueDate, now) && !p.allowLateSubmissionAfterDue
  {
    if status.Some? { assert status.value == STARTED || status.value == SUBMITTED || status.value == GRADED; }
  }

  /** What the submit gate answers, for every submission: both refusals and the three marks. */
  lemma SubmitAnswers(p: Policy, startedAt: Option<int>, now: int, auto: bool)
    ensures var r := EvaluateSubmitDeadline(p, startedAt, now, auto);
            && (r.refusal == Some(PastDue) <==>
                  DayIsOver(p.dueDate, now) && !p.allowLateSubmissionAfterDue
                  && (startedAt == None || DayIsOver(p.dueDate, startedAt.value)))
            && (r.refusal == Some(TimerExpired) <==>
                  r.refusal != Some(PastDue) && TimeIsUp(p, startedAt, now) && !p.allowLateSubmissionAfterTimer && !auto)
            && (r.isLateDue <==> DayIsOver(p.dueDate, now))
            && (r.isLateTimer <==> TimeIsUp(p, startedAt, now))
            && (r.isAutoSubmitted <==> auto && TimeIsUp(p, startedAt, now))
  {
  }
}
