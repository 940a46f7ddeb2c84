/**
 One student's submission of one assessment: start and resume, violations, submit, grade
 (src/assessments/assessments.service.ts). Scores are real numbers; one clock reading per call.
 */
module Submissions {
  import opened Prelude
  import opened Deadlines

  datatype Assessment = Assessment(
    published: bool,
    policy: Policy,
    maxScore: real,
    violationThreshold: int,
    pointsPerViolation: real,
    lateDuePenaltyPoints: real,
    lateTimerPenaltyPoints: real)

  /** The score of one stored answer, if it has been scored. */
  datatype Answer = Answer(questionId: string, score: real)

  datatype Submission = Submission(
    status: SubmissionStatus,
    startedAt: Option<int>,
    token: Option<string>,
    violationCount: nat,
    isFlagged: bool,
    pointDeductions: real,
    lateDueDeduction: real,
    lateTimerDeduction: real,
    totalScore: real,
    answers: seq<Answer>)

  /** The last two are errors of the transaction, which then stores nothing. */
  datatype Refused =
    | Unavailable | NotFound | AlreadyGraded | MultipleSessions | Submitted | NotLaunched
    | Deadline(reason: Refusal)
    | AnswersNotStorable | NoAnswerToScore

  // ---------------------------------------------------------------- scoring

  datatype QuestionType = MULTIPLE_CHOICE | SHORT_ANSWER | ESSAY

  /**
   An answer beside its question of this assessment, if there is one: whether its option matches, and the model's score
   if there is one. `elsewhere` says that another assessment has the question.
   */
  datatype Item = Item(
    questionId: string, question: Option<QuestionType>, elsewhere: bool, points: real, matches: bool, aiScore: Option<real>)

  function ScoreOf(item: Item): real {
    match item.question
    case Some(MULTIPLE_CHOICE) => if item.matches then item.points else 0.0
    case Some(SHORT_ANSWER) => item.aiScore.GetOr(0.0)
    case _ => 0.0
  }

  function Sum(answers: seq<Answer>): real {
    if answers == [] then 0.0 else Sum(answers[..|answers| - 1]) + answers[|answers| - 1].score
  }

  /** A matching option earns the points of its question, a short answer the model's score, anything else nothing. */
  predicate ScoredRight(item: Item, answer: Answer) {
    && answer.questionId == item.questionId
    && (item.question == Some(MULTIPLE_CHOICE) && item.matches ==> answer.score == item.points)
    && (item.question == Some(MULTIPLE_CHOICE) && !item.matches ==> answer.score == 0.0)
    && (item.question == Some(SHORT_ANSWER) && item.aiScore.Some? ==> answer.score == item.aiScore.value)
    && (item.question == Some(SHORT_ANSWER) && item.aiScore.None? ==> answer.score == 0.0)
    && (item.question == Some(ESSAY) || item.question == None ==> answer.score == 0.0)
  }

  lemma {:induction false} SumConcat(a: seq<Answer>, b: seq<Answer>)
    ensures Sum(a + b) == Sum(a) + Sum(b)
  {
    if b == [] {
      assert a + b == a;
    } else {
      SumConcat(a, b[..|b| - 1]);
      assert (a + b)[..|a + b| - 1] == a + b[..|b| - 1];
    }
  }

  lemma SumOne(answer: Answer)
    ensures Sum([answer]) == answer.score
  {
    assert [answer][..0] == [];
  }

  method ScoreAnswers(items: seq<Item>) returns (answers: seq<Answer>, totalScore: real)
    ensures |answers| == |items|
    ensures forall i :: 0 <= i < |items| ==> answers[i] == Answer(items[i].questionId, ScoreOf(items[i]))
    ensures forall i :: 0 <= i < |items| ==> ScoredRight(items[i], answers[i])
    ensures totalScore == Sum(answers)
  {
    answers, totalScore := [], 0.0;
    for i := 0 to |items|
      invariant |answers| == i
      invariant forall j :: 0 <= j < i ==> answers[j] == Answer(items[j].questionId, ScoreOf(items[j]))
      invariant totalScore == Sum(answers)
    {
      var score := 0.0;
      var q := items[i].question;
      if q == Some(MULTIPLE_CHOICE) {
        score := if items[i].matches then items[i].points else 0.0;
        totalScore := totalScore + score;
      } else if q == Some(SHORT_ANSWER) {
        if items[i].aiScore.Some? {
          score := items[i].aiScore.value;
          totalScore := totalScore + score;
        }
      }
      ghost var before := answers;
      answers := answers + [Answer(items[i].questionId, score)];
      assert answers[..|answers| - 1] == before;
    }
  }

  // ---------------------------------------------------------------- violations

  /** `violationThreshold || 1`: zero counts as one. */
  function Threshold(a: Assessment): int { if a.violationThreshold == 0 then 1 else a.violationThreshold }

  /** What one penalised violation costs. */
  function Penalty(a: Assessment): real { if a.pointsPerViolation > 0.0 then a.pointsPerViolation else 0.0 }

  /** How many of the first `n` violations come after the threshold. */
  function Penalised(a: Assessment, n: nat): nat {
    var t := Threshold(a);
    if n <= t then 0 else if t < 0 then n else n - t
  }

  function Times(p: real, n: nat): real { n as real * p }

  lemma TimesOneMore(p: real, n: nat)
    ensures Times(p, n + 1) == Times(p, n) + p
  {
    assert (n + 1) as real == n as real + 1.0;
  }

  function WithViolation(a: Assessment, s: Submission): Submission {
    var count := s.violationCount + 1;
    if count > Threshold(a) then
      s.(violationCount := count, isFlagged := true, pointDeductions := s.pointDeductions + Penalty(a))
    else s.(violationCount := count)
  }

  /** The count, the flag and the deductions after `n` violations. */
  ghost predicate CountsViolations(a: Assessment, s: Submission, n: nat) {
    && s.violationCount == n
    && (s.isFlagged <==> n > Threshold(a) && n > 0)
    && s.pointDeductions == Times(Penalty(a), Penalised(a, n))
  }

  lemma ViolationCounted(a: Assessment, s: Submission, n: nat)
    requires CountsViolations(a, s, n)
    ensures CountsViolations(a, WithViolation(a, s), n + 1)
  {
    if n + 1 > Threshold(a) {
      assert Penalised(a, n + 1) == Penalised(a, n) + 1;
      TimesOneMore(Penalty(a), Penalised(a, n));
    }
  }

  // ---------------------------------------------------------------- the final score

  function Clamp(score: real, maxScore: real): real {
    var capped := if score < maxScore then score else maxScore;
    if capped > 0.0 then capped else 0.0
  }

  function NotNegative(x: real): real { if x > 0.0 then x else 0.0 }

  predicate OncePerQuestion(answers: seq<Answer>) {
    forall i, j :: 0 <= i < j < |answers| ==> answers[i].questionId != answers[j].questionId
  }

  /** The scores that a request gives, keyed by question. */
  type Scores = s: seq<Answer> | OncePerQuestion(s)

  /** What a teacher may override when grading. */
  datatype GradeRequest = GradeRequest(
    totalScore: Option<real>,
    questionScores: Option<Scores>,
    lateDueDeduction: Option<real>,
    lateTimerDeduction: Option<real>)

  const NO_OVERRIDES := GradeRequest(None, None, None, None)

  function Deduction(given: Option<real>, stored: real): real {
    if given.Some? then NotNegative(given.value) else stored
  }

  function ComputedFinal(a: Assessment, s: Submission, dto: GradeRequest): real {
    Clamp(Sum(if dto.questionScores.Some? then dto.questionScores.value else s.answers)
            - s.pointDeductions
            - Deduction(dto.lateDueDeduction, s.lateDueDeduction)
            - Deduction(dto.lateTimerDeduction, s.lateTimerDeduction),
          a.maxScore)
  }

  /** The computed score is never negative, and never above the maximum unless the maximum itself is negative. */
  lemma FinalInRange(a: Assessment, s: Submission, dto: GradeRequest)
    ensures ComputedFinal(a, s, dto) >= 0.0
    ensures ComputedFinal(a, s, dto) <= a.maxScore <==> a.maxScore >= 0.0
  {
  }

  /** One more violation never raises the computed score and lowers it by at most the penalty. */
  lemma ViolationMovesFinal(a: Assessment, s: Submission, dto: GradeRequest)
    ensures ComputedFinal(a, s, dto) - Penalty(a) <= ComputedFinal(a, WithViolation(a, s), dto) <= ComputedFinal(a, s, dto)
  {
  }

  // ---------------------------------------------------------------- the calls

  datatype Call =
    | Start(now: int, newToken: string)
    | Violation
    | Submit(now: int, token: Option<string>, isAutoSubmit: bool, items: seq<Item>)
    | Grade(dto: GradeRequest)

  function StatusOf(s: Option<Submission>): Option<SubmissionStatus> { if s.Some? then Some(s.value.status) else None }

  function StartedAtOf(s: Option<Submission>): Option<int> { if s.Some? then s.value.startedAt else None }

  /** The answers of a submitted form, scored. */
  function Scored(items: seq<Item>): seq<Answer> {
    seq(|items|, i requires 0 <= i < |items| => Answer(items[i].questionId, ScoreOf(items[i])))
  }

  /** The table takes one answer for each question, and only for questions that exist. */
  predicate Storable(items: seq<Item>) {
    OncePerQuestion(Scored(items)) && forall i :: 0 <= i < |items| ==> items[i].question.Some? || items[i].elsewhere
  }

  /** Each given score is for a stored answer. */
  predicate AllAnswered(answers: seq<Answer>, scores: seq<Answer>) {
    forall i :: 0 <= i < |scores| ==> exists j :: 0 <= j < |answers| && answers[j].questionId == scores[i].questionId
  }

  predicate SessionConflict(s: Option<Submission>, token: Option<string>) {
    && s.Some? && TextOr(token, "") != "" && TextOr(s.value.token, "") != "" && TextOr(token, "") != TextOr(s.value.token, "")
  }

  function WhyRefused(a: Assessment, s: Option<Submission>, call: Call): Option<Refused> {
    match call
    case Start(now, _) =>
      if !a.published then Some(Unavailable)
      else (match EvaluateStartDeadline(a.policy, StatusOf(s), now)
       case StartAllowed => None
       case AlreadySubmitted => Some(Submitted)
       case StartPastDue => Some(Deadline(PastDue)))
    case Violation => if s.None? then Some(NotFound) else if s.value.status == GRADED then Some(AlreadyGraded) else None
    case Submit(now, token, auto, items) =>
      if SessionConflict(s, token) then Some(MultipleSessions)
      else if s.Some? && s.value.status != STARTED then Some(Submitted)
      else if a.policy.isTimed && StartedAtOf(s).None? then Some(NotLaunched)
      else
        var check := EvaluateSubmitDeadline(a.policy, StartedAtOf(s), now, auto);
        if check.refusal.Some? then Some(Deadline(check.refusal.value))
        else if !Storable(items) then Some(AnswersNotStorable)
        else None
    case Grade(dto) =>
      if s.None? then Some(NotFound)
      else if dto.questionScores.Some? && !AllAnswered(s.value.answers, dto.questionScores.value) then Some(NoAnswerToScore)
      else None
  }

  const NEW := Submission(SUBMITTED, None, None, 0, false, 0.0, 0.0, 0.0, 0.0, [])

  /** The submission after an accepted call. */
  function After(a: Assessment, s: Option<Submission>, call: Call): Submission
    requires WhyRefused(a, s, call).None?
  {
    match call
    case Start(now, token) =>
      if s.None? then NEW.(status := STARTED, startedAt := Some(now), token := Some(token))
      else s.value.(token := Some(token), startedAt := if s.value.startedAt.Some? then s.value.startedAt else Some(now))
    case Violation => WithViolation(a, s.value)
    case Submit(now, _, auto, items) =>
      var check := EvaluateSubmitDeadline(a.policy, StartedAtOf(s), now, auto);
      s.GetOr(NEW).(status := SUBMITTED,
                    totalScore := Sum(Scored(items)),
                    answers := Scored(items),
                    lateDueDeduction := if check.isLateDue then NotNegative(a.lateDuePenaltyPoints) else 0.0,
                    lateTimerDeduction := if check.isLateTimer then NotNegative(a.lateTimerPenaltyPoints) else 0.0)
    case Grade(dto) =>
      s.value.(status := GRADED,
               totalScore := dto.totalScore.GetOr(ComputedFinal(a, s.value, dto)),
               lateDueDeduction := Deduction(dto.lateDueDeduction, s.value.lateDueDeduction),
               lateTimerDeduction := Deduction(dto.lateTimerDeduction, s.value.lateTimerDeduction),
               answers := if dto.questionScores.Some? then Regraded(s.value.answers, dto.questionScores.value)
                          else s.value.answers)
  }

  /** The answers with the scores the teacher gave; the others keep theirs. */
  function Regraded(answers: seq<Answer>, scores: seq<Answer>): seq<Answer> {
    seq(|answers|, i requires 0 <= i < |answers| =>
      answers[i].(score := FindScore(scores, answers[i].questionId).GetOr(answers[i].score)))
  }

  function FindScore(scores: seq<Answer>, questionId: string): Option<real> {
    if scores == [] then None
    else if scores[0].questionId == questionId then Some(scores[0].score)
    else FindScore(scores[1..], questionId)
  }

  // ---------------------------------------------------------------- whole runs

  /** The submission, and how many violations and submits were accepted so far. */
  datatype State = State(submission: Option<Submission>, violations: nat, submits: nat)

  function Step(a: Assessment, st: State, call: Call): State {
    if WhyRefused(a, st.submission, call).Some? then st
    else State(Some(After(a, st.submission, call)),
               st.violations + if call.Violation? then 1 else 0,
               st.submits + if call.Submit? then 1 else 0)
  }

  function Run(a: Assessment, calls: seq<Call>): State {
    if calls == [] then State(None, 0, 0) else Step(a, Run(a, calls[..|calls| - 1]), calls[|calls| - 1])
  }

  ghost predicate Inv(a: Assessment, st: State) {
    match st.submission
    case None => st.violations == 0 && st.submits == 0
    case Some(s) =>
      && CountsViolations(a, s, st.violations)
      && (s.status == STARTED ==> s.startedAt.Some? && st.submits == 0)
      && (s.status == SUBMITTED ==> st.submits == 1 && s.totalScore == Sum(s.answers))
      && st.submits <= 1
      && (s.startedAt.Some? ==> StartedInTime(a.policy, s.startedAt.value))
  }

  lemma StartKeepsInv(a: Assessment, st: State, call: Call)
    requires Inv(a, st) && call.Start? && WhyRefused(a, st.submission, call).None?
    ensures Inv(a, Step(a, st, call))
  {
    hide CountsViolations, Sum, Storable, AllAnswered;
    var after := After(a, st.submission, call);
    if st.submission.None? {
      FreshCounts(a);
      CountsFrame(a, NEW, after, 0);
    } else {
      CountsFrame(a, st.submission.value, after, st.violations);
    }
  }

  lemma StepKeepsInv(a: Assessment, st: State, call: Call)
    requires Inv(a, st)
    ensures Inv(a, Step(a, st, call))
  {
    hide CountsViolations, WithViolation, Sum, Scored, ComputedFinal, Storable, AllAnswered;
    if WhyRefused(a, st.submission, call).None? {
      match call
      case Start(_, _) => StartKeepsInv(a, st, call);
      case Violation =>
        ViolationCounted(a, st.submission.value, st.violations);
        ViolationFrame(a, st.submission.value);
      case Submit(_, _, _, _) =>
        FreshCounts(a);
        CountsFrame(a, st.submission.GetOr(NEW), After(a, st.submission, call), st.violations);
      case Grade(_) => CountsFrame(a, st.submission.value, After(a, st.submission, call), st.violations);
    }
  }

  lemma FreshCounts(a: Assessment)
    ensures CountsViolations(a, NEW, 0)
  {
  }

  lemma CountsFrame(a: Assessment, s: Submission, t: Submission, n: nat)
    requires CountsViolations(a, s, n)
    requires t.violationCount == s.violationCount && t.isFlagged == s.isFlagged && t.pointDeductions == s.pointDeductions
    ensures CountsViolations(a, t, n)
  {
  }

  lemma ViolationFrame(a: Assessment, s: Submission)
    ensures var t := WithViolation(a, s);
            && t.status == s.status && t.startedAt == s.startedAt && t.token == s.token
            && t.totalScore == s.totalScore && t.answers == s.answers
            && t.lateDueDeduction == s.lateDueDeduction && t.lateTimerDeduction == s.lateTimerDeduction
  {
  }

  lemma {:induction false} RunKeepsInv(a: Assessment, calls: seq<Call>)
    ensures Inv(a, Run(a, calls))
  {
    if calls != [] {
      RunKeepsInv(a, calls[..|calls| - 1]);
      StepKeepsInv(a, Run(a, calls[..|calls| - 1]), calls[|calls| - 1]);
    }
  }

  /** In every run: violations are counted exactly, at most one submit is accepted, and a started one has its time. */
  lemma EveryRun(a: Assessment, calls: seq<Call>)
    ensures var st := Run(a, calls);
            && st.submits <= 1
            && (st.submission.Some? ==>
                  && st.submission.value.violationCount == st.violations
                  && (st.submission.value.isFlagged <==> st.violations > Threshold(a) && st.violations > 0)
                  && st.submission.value.pointDeductions == Times(Penalty(a), Penalised(a, st.violations)))
  {
    RunKeepsInv(a, calls);
  }

  /** The same in numbers: with a threshold T, not negative and 1 if it is 0, every violation after T costs the points. */
  lemma DeductionsOfEveryRun(a: Assessment, calls: seq<Call>)
    requires Run(a, calls).submission.Some? && a.violationThreshold >= 0
    ensures var (s, n) := (Run(a, calls).submission.value, Run(a, calls).violations);
            var allowed := if a.violationThreshold == 0 then 1 else a.violationThreshold;
            && s.violationCount == n
            && (s.isFlagged <==> n > allowed)
            && (n <= allowed || a.pointsPerViolation <= 0.0 ==> s.pointDeductions == 0.0)
            && (n > allowed && a.pointsPerViolation > 0.0 ==> s.pointDeductions == (n - allowed) as real * a.pointsPerViolation)
  {
    hide Run, CountsViolations;
    RunKeepsInv(a, calls);
    CountsInNumbers(a, Run(a, calls).submission.value, Run(a, calls).violations);
  }

  lemma TimesNothing(p: real, n: nat)
    ensures Times(p, 0) == 0.0 && Times(0.0, n) == 0.0
  {
  }

  lemma CountsInNumbers(a: Assessment, s: Submission, n: nat)
    requires CountsViolations(a, s, n) && a.violationThreshold >= 0
    ensures var allowed := if a.violationThreshold == 0 then 1 else a.violationThreshold;
            && s.violationCount == n
            && (s.isFlagged <==> n > allowed)
            && (n <= allowed || a.pointsPerViolation <= 0.0 ==> s.pointDeductions == 0.0)
            && (n > allowed && a.pointsPerViolation > 0.0 ==> s.pointDeductions == (n - allowed) as real * a.pointsPerViolation)
  {
    var allowed := if a.violationThreshold == 0 then 1 else a.violationThreshold;
    var penalised := if n <= allowed then 0 else n - allowed;
    assert Penalised(a, n) == penalised;
    assert Times(Penalty(a), penalised) == penalised as real * Penalty(a);
    if n <= allowed || a.pointsPerViolation <= 0.0 {
      hide Times;
      TimesNothing(Penalty(a), penalised);
    }
  }

  /** In every run a started submission is refused only for its session, its timer or its answers, never for the due date. */
  lemma StartedIsNeverPastDue(a: Assessment, calls: seq<Call>, now: int, token: Option<string>, auto: bool, items: seq<Item>)
    requires StatusOf(Run(a, calls).submission) == Some(STARTED)
    ensures var s, why := Run(a, calls).submission, WhyRefused(a, Run(a, calls).submission, Submit(now, token, auto, items));
            && (why.Some? ==> why.value in [MultipleSessions, Deadline(TimerExpired), AnswersNotStorable])
            && (why == Some(MultipleSessions) <==> SessionConflict(s, token))
            && (why == Some(AnswersNotStorable) ==> !Storable(items))
  {
    RunKeepsInv(a, calls);
  }

  function Rank(s: Option<Submission>): nat {
    match StatusOf(s)
    case None => 0
    case Some(STARTED) => 1
    case Some(SUBMITTED) => 2
    case Some(GRADED) => 3
  }

  /** A call never takes the submission back, never resets a start time, and after submission accepts no start and no submit. */
  lemma NeverBack(a: Assessment, st: State, call: Call)
    ensures Rank(st.submission) <= Rank(Step(a, st, call).submission)
    ensures StartedAtOf(st.submission).Some? ==> StartedAtOf(Step(a, st, call).submission) == StartedAtOf(st.submission)
    ensures Rank(st.submission) >= 2 && (call.Start? || call.Submit?) ==> Step(a, st, call) == st
  {
  }

  lemma {:induction false} NeverBackInRuns(a: Assessment, calls: seq<Call>, more: seq<Call>)
    ensures Rank(Run(a, calls).submission) <= Rank(Run(a, calls + more).submission)
    ensures StartedAtOf(Run(a, calls).submission).Some? ==>
              StartedAtOf(Run(a, calls + more).submission) == StartedAtOf(Run(a, calls).submission)
  {
    if more == [] {
      assert calls + more == calls;
    } else {
      NeverBackInRuns(a, calls, more[..|more| - 1]);
      assert (calls + more)[..|calls + more| - 1] == calls + more[..|more| - 1];
      NeverBack(a, Run(a, calls + more[..|more| - 1]), more[|more| - 1]);
    }
  }

  /** Only the token of the latest start passes: an older session is turned away. */
  lemma LatestSessionOnly(a: Assessment, st: State, now: int, token: string, other: string)
    requires WhyRefused(a, st.submission, Start(now, token)).None? && token != "" && other != ""
    ensures SessionConflict(Step(a, st, Start(now, token)).submission, Some(other)) <==> other != token
  {
  }

  /**
   The grade of a submitted run without overrides: the sum of the answer scores, less the penalty for each violation
   past the threshold, less the lateness penalties that the submit recorded, kept between 0 and the maximum.
   */
  lemma FinalGradeOfARun(a: Assessment, calls: seq<Call>)
    requires StatusOf(Run(a, calls).submission) == Some(SUBMITTED)
    ensures var st := Run(a, calls);
            var s := st.submission.value;
            Step(a, st, Grade(NO_OVERRIDES)).submission.value.totalScore
              == Clamp(s.totalScore - Times(Penalty(a), Penalised(a, st.violations)) - s.lateDueDeduction - s.lateTimerDeduction,
                       a.maxScore)
  {
    RunKeepsInv(a, calls);
  }

  // ---------------------------------------------------------------- what each call accepts and records

  /** The caller's session is not the one that the row knows. */
  predicate OtherSession(s: Option<Submission>, token: Option<string>) {
    s.Some? && HasText(token) && HasText(s.value.token) && token != s.value.token
  }

  /** Each question is answered once, and exists. */
  ghost predicate AnswersFit(items: seq<Item>) {
    && (forall i, j :: 0 <= i < j < |items| ==> items[i].questionId != items[j].questionId)
    && (forall i :: 0 <= i < |items| ==> items[i].question == None ==> items[i].elsewhere)
  }

  lemma StartAccepted(a: Assessment, s: Option<Submission>, now: int, token: string)
    ensures WhyRefused(a, s, Start(now, token)) == None <==>
              && a.published
              && (s == None || s.value.status == STARTED)
              && (s == None ==> !DayIsOver(a.policy.dueDate, now) || a.policy.allowLateSubmissionAfterDue)
  {
  }

  lemma ViolationAccepted(a: Assessment, s: Option<Submission>)
    ensures WhyRefused(a, s, Violation) == None <==> s.Some? && s.value.status != GRADED
  {
  }

  /** The reasons against a submit, in the order in which they are given. */
  lemma SubmitAccepted(a: Assessment, s: Option<Submission>, now: int, token: Option<string>, auto: bool, items: seq<Item>)
    ensures var why := WhyRefused(a, s, Submit(now, token, auto, items));
            var startedAt := if s.Some? then s.value.startedAt else None;
            && (why == Some(MultipleSessions) <==> OtherSession(s, token))
            && (why == Some(Submitted) <==> !OtherSession(s, token) && s.Some? && s.value.status != STARTED)
            && (why == Some(NotLaunched) <==>
                  !OtherSession(s, token) && (s == None || s.value.status == STARTED) && a.policy.isTimed && startedAt == None)
            && (why == None ==>
                  && !OtherSession(s, token) && (s == None || s.value.status == STARTED)
                  && (a.policy.isTimed ==> startedAt.Some?)
                  && AnswersFit(items)
                  && (DayIsOver(a.policy.dueDate, now) ==>
                        a.policy.allowLateSubmissionAfterDue || (startedAt.Some? && !DayIsOver(a.policy.dueDate, startedAt.value)))
                  && (TimeIsUp(a.policy, startedAt, now) ==> a.policy.allowLateSubmissionAfterTimer || auto))
            && (why.Some? && why != Some(MultipleSessions) && why != Some(Submitted) && why != Some(NotLaunched) ==>
                  || !AnswersFit(items)
                  || (DayIsOver(a.policy.dueDate, now) && !a.policy.allowLateSubmissionAfterDue
                      && (startedAt == None || DayIsOver(a.policy.dueDate, startedAt.value)))
                  || (TimeIsUp(a.policy, startedAt, now) && !a.policy.allowLateSubmissionAfterTimer && !auto))
  {
    hide Storable, IsPastDueDate, IsTimerExpired;
    var startedAt := if s.Some? then s.value.startedAt else None;
    SubmitAnswers(a.policy, startedAt, now, auto);
    StorableFits(items);
  }

  lemma StorableFits(items: seq<Item>)
    ensures Storable(items) <==> AnswersFit(items)
  {
    var scored := Scored(items);
    assert forall i :: 0 <= i < |items| ==> scored[i].questionId == items[i].questionId;
    if Storable(items) {
      forall i, j | 0 <= i < j < |items| ensures items[i].questionId != items[j].questionId {
        assert scored[i].questionId != scored[j].questionId;
      }
    }
  }

  lemma GradeAccepted(a: Assessment, s: Option<Submission>, dto: GradeRequest)
    ensures WhyRefused(a, s, Grade(dto)) == None <==>
              && s.Some?
              && (dto.questionScores.Some? ==>
                    forall i :: 0 <= i < |dto.questionScores.value| ==>
                      HasAnswer(s.value.answers, dto.questionScores.value[i].questionId))
  {
    if s.Some? && dto.questionScores.Some? {
      AnsweredMeans(s.value.answers, dto.questionScores.value);
    }
  }

  predicate HasAnswer(answers: seq<Answer>, questionId: string) {
    exists j :: 0 <= j < |answers| && answers[j].questionId == questionId
  }

  lemma AnsweredMeans(answers: seq<Answer>, scores: seq<Answer>)
    ensures AllAnswered(answers, scores) <==> forall i :: 0 <= i < |scores| ==> HasAnswer(answers, scores[i].questionId)
  {
    if AllAnswered(answers, scores) {
      forall i | 0 <= i < |scores| ensures HasAnswer(answers, scores[i].questionId) {
        var score := scores[i];
      }
    } else {
      var i :| 0 <= i < |scores| && !exists j :: 0 <= j < |answers| && answers[j].questionId == scores[i].questionId;
      assert !HasAnswer(answers, scores[i].questionId);
    }
  }

  /** A first start makes a clean row; a later one renews the token and fills in a missing start time. */
  lemma StartRecords(a: Assessment, s: Option<Submission>, now: int, token: string)
    requires WhyRefused(a, s, Start(now, token)) == None
    ensures var t := After(a, s, Start(now, token));
            && (s == None ==> t == Submission(STARTED, Some(now), Some(token), 0, false, 0.0, 0.0, 0.0, 0.0, []))
            && (s.Some? ==> t == s.value.(token := Some(token), startedAt := t.startedAt))
            && (s.Some? && s.value.startedAt.Some? ==> t.startedAt == s.value.startedAt)
            && (s.Some? && s.value.startedAt.None? ==> t.startedAt == Some(now))
  {
  }

  /** A violation counts, and from the threshold on flags the row and costs the points. */
  lemma ViolationRecords(a: Assessment, s: Submission)
    ensures var (t, n) := (WithViolation(a, s), s.violationCount + 1);
            var over := n > (if a.violationThreshold == 0 then 1 else a.violationThreshold);
            && t == s.(violationCount := n, isFlagged := t.isFlagged, pointDeductions := t.pointDeductions)
            && t.isFlagged == (s.isFlagged || over)
            && t.pointDeductions == if over && a.pointsPerViolation > 0.0 then s.pointDeductions + a.pointsPerViolation
                                    else s.pointDeductions
  {
  }

  /** A submit stores the scored answers, their sum and the penalties for being late; the rest of the row stays. */
  lemma SubmitRecords(a: Assessment, s: Option<Submission>, now: int, token: Option<string>, auto: bool, items: seq<Item>)
    requires WhyRefused(a, s, Submit(now, token, auto, items)) == None
    ensures var t := After(a, s, Submit(now, token, auto, items));
            var startedAt := if s.Some? then s.value.startedAt else None;
            && t.status == SUBMITTED && t.startedAt == startedAt
            && |t.answers| == |items| && (forall i :: 0 <= i < |items| ==> ScoredRight(items[i], t.answers[i]))
            && t.totalScore == Sum(t.answers)
            && t.lateDueDeduction == (if DayIsOver(a.policy.dueDate, now) && a.lateDuePenaltyPoints > 0.0
                                      then a.lateDuePenaltyPoints else 0.0)
            && t.lateTimerDeduction == (if TimeIsUp(a.policy, startedAt, now) && a.lateTimerPenaltyPoints > 0.0
                                        then a.lateTimerPenaltyPoints else 0.0)
            && (s.Some? ==> t.token == s.value.token && t.pointDeductions == s.value.pointDeductions)
            && (s.Some? ==> t.violationCount == s.value.violationCount && t.isFlagged == s.value.isFlagged)
            && (s == None ==> t.token == None && t.violationCount == 0 && !t.isFlagged && t.pointDeductions == 0.0)
  {
    hide Sum, Storable, IsPastDueDate, IsTimerExpired;
    SubmitAnswers(a.policy, if s.Some? then s.value.startedAt else None, now, auto);
  }

  /** `answer` afterwards carries the score given for its question, or else its own. */
  ghost predicate RegradedAs(answer: Answer, after: Answer, scores: seq<Answer>) {
    && after.questionId == answer.questionId
    && (forall i :: 0 <= i < |scores| && scores[i].questionId == answer.questionId ==> after.score == scores[i].score)
    && ((forall i :: 0 <= i < |scores| ==> scores[i].questionId != answer.questionId) ==> after.score == answer.score)
  }

  lemma {:induction false} FindScoreIs(scores: seq<Answer>, questionId: string)
    requires OncePerQuestion(scores)
    ensures forall i :: 0 <= i < |scores| && scores[i].questionId == questionId ==> FindScore(scores, questionId) == Some(scores[i].score)
    ensures (forall i :: 0 <= i < |scores| ==> scores[i].questionId != questionId) ==> FindScore(scores, questionId) == None
  {
    if scores != [] {
      FindScoreIs(scores[1..], questionId);
      forall i | 0 <= i < |scores| && scores[i].questionId == questionId
        ensures FindScore(scores, questionId) == Some(scores[i].score)
      {
        if i > 0 { assert scores[1..][i - 1] == scores[i]; }
      }
    }
  }

  function Max(x: real, y: real): real { if x >= y then x else y }

  function Min(x: real, y: real): real { if x <= y then x else y }

  /** Grading: an override, or the scores less all deductions between 0 and the maximum; what was given replaces what was stored. */
  lemma GradeRecords(a: Assessment, s: Submission, dto: GradeRequest)
    requires WhyRefused(a, Some(s), Grade(dto)) == None
    ensures var t := After(a, Some(s), Grade(dto));
            var raw := Sum(if dto.questionScores.Some? then dto.questionScores.value else s.answers);
            && t.status == GRADED
            && t.lateDueDeduction == (if dto.lateDueDeduction.Some? then Max(0.0, dto.lateDueDeduction.value) else s.lateDueDeduction)
            && t.lateTimerDeduction == (if dto.lateTimerDeduction.Some? then Max(0.0, dto.lateTimerDeduction.value)
                                        else s.lateTimerDeduction)
            && (dto.totalScore.Some? ==> t.totalScore == dto.totalScore.value)
            && (dto.totalScore.None? ==>
                  t.totalScore == Max(0.0, Min(a.maxScore, raw - s.pointDeductions - t.lateDueDeduction - t.lateTimerDeduction)))
            && |t.answers| == |s.answers|
            && (dto.questionScores.None? ==> t.answers == s.answers)
            && (dto.questionScores.Some? ==>
                  forall i :: 0 <= i < |s.answers| ==> RegradedAs(s.answers[i], t.answers[i], dto.questionScores.value))
            && t.startedAt == s.startedAt && t.token == s.token && t.violationCount == s.violationCount
            && t.isFlagged == s.isFlagged && t.pointDeductions == s.pointDeductions
  {
    hide Sum, AllAnswered, FindScore;
    if dto.questionScores.Some? {
      forall i | 0 <= i < |s.answers|
        ensures RegradedAs(s.answers[i], Regraded(s.answers, dto.questionScores.value)[i], dto.questionScores.value)
      {
        FindScoreIs(dto.questionScores.value, s.answers[i].questionId);
      }
    }
  }

  // ---------------------------------------------------------------- the service

  class SubmissionRow {
    const assessment: Assessment
    var submission: Option<Submission>

    constructor (assessment: Assessment)
      ensures this.assessment == assessment && submission == None
    {
      this.assessment := assessment;
      submission := None;
    }

    /** The row after the call: refused calls leave it alone. */
    ghost predicate Took(before: Option<Submission>, call: Call, refused: Option<Refused>)
      reads this
    {
      && refused == WhyRefused(assessment, before, call)
      && submission == if refused.Some? then before else Some(After(assessment, before, call))
    }

    method StartAssessment(now: int, newSessionToken: string) returns (refused: Option<Refused>)
      modifies this
      ensures Took(old(submission), Start(now, newSessionToken), refused)
    {
      if !assessment.published { return Some(Unavailable); }
      var check := EvaluateStartDeadline(assessment.policy, StatusOf(submission), now);
      if check == AlreadySubmitted { return Some(Submitted); }
      if check == StartPastDue { return Some(Deadline(PastDue)); }
      if submission.None? {
        submission := Some(NEW.(status := STARTED, startedAt := Some(now), token := Some(newSessionToken)));
      } else {
        submission := Some(submission.value.(token := Some(newSessionToken)));
        if submission.value.startedAt.None? { submission := Some(submission.value.(startedAt := Some(now))); }
      }
      refused := None;
    }

    method LogViolation() returns (refused: Option<Refused>)
      modifies this
      ensures Took(old(submission), Violation, refused)
    {
      if submission.None? { return Some(NotFound); }
      var s := submission.value;
      if s.status == GRADED { return Some(AlreadyGraded); }
      var newCount, isFlagged, pointDeductions := s.violationCount + 1, s.isFlagged, s.pointDeductions;
      if newCount > (if assessment.violationThreshold != 0 then assessment.violationThreshold else 1) {
        isFlagged := true;
        if assessment.pointsPerViolation > 0.0 { pointDeductions := pointDeductions + assessment.pointsPerViolation; }
      }
      submission := Some(s.(violationCount := newCount, isFlagged := isFlagged, pointDeductions := pointDeductions));
      refused := None;
    }

    method SubmitAssessment(now: int, token: Option<string>, isAutoSubmit: bool, items: seq<Item>)
      returns (refused: Option<Refused>)
      modifies this
      ensures Took(old(submission), Submit(now, token, isAutoSubmit, items), refused)
    {
      if SessionConflict(submission, token) { return Some(MultipleSessions); }
      if submission.Some? && (submission.value.status == GRADED || submission.value.status == SUBMITTED) {
        return Some(Submitted);
      }
      if assessment.policy.isTimed && StartedAtOf(submission).None? { return Some(NotLaunched); }
      var check := EvaluateSubmitDeadline(assessment.policy, StartedAtOf(submission), now, isAutoSubmit);
      if check.refusal.Some? { return Some(Deadline(check.refusal.value)); }
      var lateDue := if check.isLateDue && assessment.lateDuePenaltyPoints > 0.0 then assessment.lateDuePenaltyPoints else 0.0;
      var lateTimer :=
        if check.isLateTimer && assessment.lateTimerPenaltyPoints > 0.0 then assessment.lateTimerPenaltyPoints else 0.0;
      var answers, totalScore := ScoreAnswers(items);
      assert answers == Scored(items);
      if !Storable(items) { return Some(AnswersNotStorable); }
      var row := if submission.Some? then submission.value else NEW;
      submission := Some(row.(status := SUBMITTED, totalScore := totalScore, answers := answers,
                              lateDueDeduction := lateDue, lateTimerDeduction := lateTimer));
      refused := None;
    }

    method GradeSubmission(dto: GradeRequest) returns (refused: Option<Refused>)
      modifies this
      ensures Took(old(submission), Grade(dto), refused)
    {
      if submission.None? { return Some(NotFound); }
      var s := submission.value;
      if dto.questionScores.Some? && !AllAnswered(s.answers, dto.questionScores.value) { return Some(NoAnswerToScore); }
      var rawScore := Sum(if dto.questionScores.Some? then dto.questionScores.value else s.answers);
      var lateDue := if dto.lateDueDeduction.Some? then NotNegative(dto.lateDueDeduction.value) else s.lateDueDeduction;
      var lateTimer := if dto.lateTimerDeduction.Some? then NotNegative(dto.lateTimerDeduction.value) else s.lateTimerDeduction;
      var computedFinal := Clamp(rawScore - s.pointDeductions - lateDue - lateTimer, assessment.maxScore);
      submission := Some(s.(status := GRADED,
                            totalScore := if dto.totalScore.Some? then dto.totalScore.value else computedFinal,
                            lateDueDeduction := lateDue, lateTimerDeduction := lateTimer,
                            answers := if dto.questionScores.Some? then Regraded(s.answers, dto.questionScores.value)
                                       else s.answers));
      refused := None;
    }
  }
}
