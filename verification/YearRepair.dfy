/**
 Forcing any consolidated answer into three full terms, so that a near miss still saves
 (src/agora-curriculum/full-year-curriculum.util.ts).
 */
module YearRepair {
  import opened Prelude
  import opened Decimals
  import opened ParsedTerms
  import opened MappedYear
  import opened YearShape

  /** `Week ${n}` */
  function WeekLabel(n: nat): string {
    "Week " + Decimal(n)
  }

  /** The title that a week with its own topic ends up with. */
  function ReservedTitle(title: Option<string>, week: nat): string {
    var own := TextOr(title, WeekLabel(week));
    if Reserved(week) && !ReservedTitleOk(week, own) then StandardTitle(week).GetOr("") + ": " + own else own
  }

  function EnsureReservedWeek(topic: Topic, week: nat): Topic {
    Topic(
      Some(ReservedTitle(topic.title, week)),
      topic.description,
      Some(week),
      Some(topic.subTopics.GetOr([])),
      Some(topic.learningOutcomes.GetOr([])),
      Some(topic.studentFriendlyOutcomes.GetOr([])),
      Some(topic.suggestedActivities.GetOr([])),
      Some(topic.resources.GetOr([])),
      Some(TextOr(topic.assessmentType,
                  if week == 13 then "Examination" else if week == 7 || week == 12 then "Revision" else "")),
      Some(if topic.order.Some? && topic.order.value != 0 then topic.order.value else week))
  }

  function FillerTitle(week: nat, previous: string): string {
    StandardTitle(week).GetOr(if previous != "" then "Continuation: " + previous else WeekLabel(week))
  }

  function FillerAssessment(week: nat, previous: Option<string>): string {
    if week == 13 then "Examination" else if week == 7 || week == 12 then "Revision" else TextOr(previous, "Classwork")
  }

  const BLANK := Topic(None, None, None, None, None, None, None, None, None, None)

  /** A week nobody wrote: the standard title if it is reserved, otherwise a continuation of the week before. */
  function MakeFillerWeek(week: nat, previous: Option<Topic>): Topic {
    var prev := previous.GetOr(BLANK);
    var prevTitle := TextOr(prev.title, "");
    var title := FillerTitle(week, prevTitle);
    var exam, revision := week == 13, week == 7 || week == 12;
    Topic(
      Some(title),
      Some(if revision || exam then "Standard " + Lower(title) + " week."
           else TextOr(prev.description, "Continue work from the previous week.")),
      Some(week),
      Some(prev.subTopics.GetOr([])),
      Some(if exam then ["Demonstrate mastery of the term\U{2019}s topics through examination."]
           else if revision then ["Review and consolidate the term\U{2019}s topics so far."]
           else if prev.learningOutcomes.GetOr([]) != [] then prev.learningOutcomes.value
           else ["Continue learning from " + (if prevTitle != "" then prevTitle else "the previous week") + "."]),
      Some(if exam then ["I can show what I learned this term."]
           else if revision then ["I can recall and practise the topics we have covered."]
           else prev.studentFriendlyOutcomes.GetOr(["I can keep practising this topic."])),
      Some(if exam then ["Sit the end-of-term examination."]
           else if revision then ["Revise notes, past questions, and classwork."]
           else prev.suggestedActivities.GetOr(["Guided practice and class discussion."])),
      Some(prev.resources.GetOr([])),
      Some(FillerAssessment(week, prev.assessmentType)),
      Some(week))
  }

  /** `Number(topic.weekNumber) > 0 ? Number(topic.weekNumber) : index + 1` */
  function PaddedWeek(topics: seq<Topic>, i: nat): int
    requires i < |topics|
  {
    if topics[i].weekNumber.Some? && topics[i].weekNumber.value > 0 then topics[i].weekNumber.value else i + 1
  }

  /** The first topic that the repair reads as week `w`. */
  ghost function FirstFor(topics: seq<Topic>, n: nat, w: int): Option<Topic>
    requires n <= |topics|
  {
    if n == 0 then None
    else OrElse(FirstFor(topics, n - 1, w), if PaddedWeek(topics, n - 1) == w then Some(topics[n - 1]) else None)
  }

  /** The first `n` weeks of the repaired term. */
  ghost function Padded(topics: seq<Topic>, n: nat): (r: seq<Topic>)
    requires n <= WEEKS_PER_TERM
    ensures |r| == n
    decreases |topics|, n
  {
    if n == 0 then []
    else
      var before, own := Padded(topics, n - 1), FirstFor(topics, |topics|, n);
      before + [if own.Some? then EnsureReservedWeek(own.value, n)
                else MakeFillerWeek(n, if n == 1 then None else Some(before[n - 2]))]
  }

  method PadTermToThirteen(topics: seq<Topic>) returns (padded: seq<Topic>)
    ensures padded == Padded(topics, WEEKS_PER_TERM)
  {
    hide Padded, EnsureReservedWeek, MakeFillerWeek;
    var byWeek: map<int, Topic> := map[];
    for i := 0 to |topics|
      invariant forall w :: w in byWeek <==> 1 <= w <= WEEKS_PER_TERM && FirstFor(topics, i, w).Some?
      invariant forall w :: w in byWeek ==> byWeek[w] == FirstFor(topics, i, w).value.(weekNumber := Some(w))
    {
      var week := PaddedWeek(topics, i);
      if 1 <= week <= WEEKS_PER_TERM && week !in byWeek {
        byWeek := byWeek[week := topics[i].(weekNumber := Some(week))];
      }
    }
    padded := [];
    NothingPadded(topics);
    for week := 1 to WEEKS_PER_TERM + 1
      invariant padded == Padded(topics, week - 1)
    {
      PaddedNext(topics, week);
      if week in byWeek { EnsureSetsNumber(FirstFor(topics, |topics|, week).value, week); }
      var previous := if padded == [] then None else Some(padded[|padded| - 1]);
      padded := padded + [if week in byWeek then EnsureReservedWeek(byWeek[week], week) else MakeFillerWeek(week, previous)];
    }
  }

  lemma NothingPadded(topics: seq<Topic>)
    ensures Padded(topics, 0) == []
  {
  }

  lemma PaddedNext(topics: seq<Topic>, week: nat)
    requires 1 <= week <= WEEKS_PER_TERM
    ensures var before, own := Padded(topics, week - 1), FirstFor(topics, |topics|, week);
            Padded(topics, week) == before + [if own.Some? then EnsureReservedWeek(own.value, week)
                                              else MakeFillerWeek(week, if week == 1 then None else Some(before[week - 2]))]
  {
  }

  lemma EnsureSetsNumber(topic: Topic, week: nat)
    ensures EnsureReservedWeek(topic.(weekNumber := Some(week)), week) == EnsureReservedWeek(topic, week)
  {
  }

  /** The topics of the last term numbered `k`; none when there is no such term. */
  ghost function LastTermTopics(terms: seq<YearTerm>, k: int): seq<Topic> {
    if terms == [] then []
    else if terms[|terms| - 1].term == Some(k) then terms[|terms| - 1].topics
    else LastTermTopics(terms[..|terms| - 1], k)
  }

  ghost function RepairedTerm(terms: seq<YearTerm>, k: int): YearTerm {
    YearTerm(Some(k), Padded(LastTermTopics(terms, k), WEEKS_PER_TERM))
  }

  /** The three full terms that any list of terms is forced into. */
  ghost function Repaired(terms: seq<YearTerm>): (r: seq<YearTerm>)
    ensures |r| == FULL_YEAR_TERMS
  {
    seq(FULL_YEAR_TERMS, i => RepairedTerm(terms, i + 1))
  }

  method NormalizeConsolidateResult(result: Option<seq<YearTerm>>) returns (r: Option<seq<YearTerm>>)
    ensures result.None? ==> r.None?
    ensures result.Some? ==> r == Some(Repaired(result.value))
  {
    hide Padded;
    if result.None? { return None; }
    var byTerm: map<int, seq<Topic>> := map[];
    for i := 0 to |result.value|
      invariant forall k :: LastTermTopics(result.value[..i], k) == if k in byTerm then byTerm[k] else []
    {
      assert result.value[..i + 1][..i] == result.value[..i];
      if result.value[i].term.Some? {
        byTerm := byTerm[result.value[i].term.value := result.value[i].topics];
      }
    }
    assert result.value[..|result.value|] == result.value;
    var terms := [];
    for k := 1 to FULL_YEAR_TERMS + 1
      invariant |terms| == k - 1
      invariant forall j :: 0 <= j < k - 1 ==> terms[j] == RepairedTerm(result.value, j + 1)
    {
      var topics := PadTermToThirteen(if k in byTerm then byTerm[k] else []);
      terms := terms + [YearTerm(Some(k), topics)];
    }
    assert terms == Repaired(result.value);
    r := Some(terms);
  }

  // ---------------------------------------------------------------- every repaired answer passes the check

  lemma RepairedTitleFits(title: Option<string>, week: nat)
    requires 1 <= week <= WEEKS_PER_TERM
    ensures ReservedTitle(title, week) != "" && ReservedTitleOk(week, ReservedTitle(title, week))
  {
    hide MidTermTitle, EndOfTermTitle, ExaminationTitle;
    if Reserved(week) {
      StandardTitleFits(week, ": " + TextOr(title, WeekLabel(week)));
      var std, own := StandardTitle(week).value, TextOr(title, WeekLabel(week));
      assert std + ": " + own == std + (": " + own);
    }
  }

  lemma EnsureShape(topic: Topic, w: nat)
    ensures EnsureReservedWeek(topic, w).weekNumber == Some(w)
    ensures EnsureReservedWeek(topic, w).title == Some(ReservedTitle(topic.title, w))
  {
  }

  lemma FillerShape(w: nat, previous: Option<Topic>)
    requires 1 <= w <= WEEKS_PER_TERM
    ensures var f := MakeFillerWeek(w, previous);
            && f.weekNumber == Some(w) && f.order == Some(w) && f.subTopics.Some? && f.learningOutcomes.Some?
            && f.studentFriendlyOutcomes.Some? && f.suggestedActivities.Some? && f.resources.Some?
  {
    hide FillerTitle, FillerAssessment, StandardTitle;
  }

  lemma FillerTitleText(w: nat, previous: string)
    ensures FillerTitle(w, previous) != "" && (Reserved(w) ==> Some(FillerTitle(w, previous)) == StandardTitle(w))
  {
  }

  lemma FillerAssessmentText(w: nat, previous: Option<string>)
    ensures FillerAssessment(w, previous) != ""
  {
  }

  lemma FillerTexts(w: nat, previous: Option<Topic>)
    requires 1 <= w <= WEEKS_PER_TERM
    ensures var f := MakeFillerWeek(w, previous);
            && TextOr(f.assessmentType, "") != "" && TextOr(f.title, "") != ""
            && (Reserved(w) ==> f.title == StandardTitle(w))
  {
    hide FillerTitle, FillerAssessment, StandardTitle;
    var prev := previous.GetOr(BLANK);
    FillerTitleText(w, TextOr(prev.title, ""));
    FillerAssessmentText(w, prev.assessmentType);
  }

  lemma {:induction false} PaddedAt(topics: seq<Topic>, n: nat, w: nat)
    requires 1 <= w <= n <= WEEKS_PER_TERM
    ensures Padded(topics, n)[w - 1].weekNumber == Some(w)
    ensures Padded(topics, n)[w - 1] == Padded(topics, w)[w - 1]
    ensures var own := FirstFor(topics, |topics|, w);
            own.Some? ==> Padded(topics, n)[w - 1] == EnsureReservedWeek(own.value, w)
  {
    hide Padded, EnsureReservedWeek, MakeFillerWeek;
    PaddedNext(topics, n);
    if w < n {
      PaddedAt(topics, n - 1, w);
    } else {
      var own, before := FirstFor(topics, |topics|, w), Padded(topics, w - 1);
      if own.Some? { EnsureShape(own.value, w); } else { FillerShape(w, if w == 1 then None else Some(before[w - 2])); }
    }
  }

  lemma PaddedTitleFits(topics: seq<Topic>, w: nat)
    requires 1 <= w <= WEEKS_PER_TERM
    ensures Reserved(w) ==> TitleFits(Padded(topics, WEEKS_PER_TERM)[w - 1], w)
  {
    hide Padded, EnsureReservedWeek, MakeFillerWeek, ReservedTitleOk;
    PaddedAt(topics, WEEKS_PER_TERM, w);
    PaddedNext(topics, w);
    var own, before := FirstFor(topics, |topics|, w), Padded(topics, w - 1);
    if own.Some? {
      EnsureShape(own.value, w);
      RepairedTitleFits(own.value.title, w);
    } else if Reserved(w) {
      FillerTexts(w, if w == 1 then None else Some(before[w - 2]));
      StandardTitleFits(w, "");
    }
  }

  lemma PaddedIsFullTerm(topics: seq<Topic>)
    ensures IsFullTerm(Padded(topics, WEEKS_PER_TERM))
  {
    hide Padded, ReservedTitleOk;
    var r := Padded(topics, WEEKS_PER_TERM);
    forall i | 0 <= i < |r| ensures CheckedWeek(r, i) == i + 1 { PaddedAt(topics, WEEKS_PER_TERM, i + 1); }
    forall w | 1 <= w <= WEEKS_PER_TERM ensures HasWeek(r, w) { assert CheckedWeek(r, w - 1) == w; }
    forall i | 0 <= i < |r| && Reserved(CheckedWeek(r, i)) ensures TitleFits(r[i], CheckedWeek(r, i)) {
      PaddedTitleFits(topics, i + 1);
    }
  }

  lemma RepairedHasTerm(terms: seq<YearTerm>, k: int)
    requires 1 <= k <= FULL_YEAR_TERMS
    ensures HasFullTerm(Repaired(terms), k)
  {
    hide Padded, IsFullTerm;
    var r := Repaired(terms);
    PaddedIsFullTerm(LastTermTopics(terms, k));
    assert r[k - 1] == RepairedTerm(terms, k);
  }

  /** Whatever terms the model answers with, the repaired answer passes the check. */
  lemma RepairedPassesCheck(terms: seq<YearTerm>)
    ensures YearProblem(Some(Repaired(terms))) == None
  {
    RepairedHasTerm(terms, 1);
    RepairedHasTerm(terms, 2);
    RepairedHasTerm(terms, 3);
    CheckAcceptsExactlyFullYears(Repaired(terms));
  }

  // ---------------------------------------------------------------- repairing twice changes nothing more

  lemma EnsureTwice(topic: Topic, w: nat)
    requires 1 <= w <= WEEKS_PER_TERM
    ensures EnsureReservedWeek(EnsureReservedWeek(topic, w), w) == EnsureReservedWeek(topic, w)
  {
    RepairedTitleFits(topic.title, w);
  }

  lemma EnsureFiller(w: nat, previous: Option<Topic>)
    requires 1 <= w <= WEEKS_PER_TERM
    ensures EnsureReservedWeek(MakeFillerWeek(w, previous), w) == MakeFillerWeek(w, previous)
  {
    hide MakeFillerWeek, ReservedTitleOk;
    FillerShape(w, previous);
    FillerTexts(w, previous);
    if Reserved(w) { StandardTitleFits(w, ""); }
  }

  lemma {:induction false} FirstForInOrder(topics: seq<Topic>, n: nat, w: nat)
    requires n <= |topics| && 1 <= w
    requires forall i :: 0 <= i < |topics| ==> topics[i].weekNumber == Some(i + 1)
    ensures FirstFor(topics, n, w) == if w <= n then Some(topics[w - 1]) else None
  {
    if n > 0 { FirstForInOrder(topics, n - 1, w); }
  }

  lemma {:induction false} PaddedTwice(topics: seq<Topic>, n: nat)
    requires n <= WEEKS_PER_TERM
    ensures Padded(Padded(topics, WEEKS_PER_TERM), n) == Padded(topics, n)
  {
    if n > 0 {
      var r := Padded(topics, WEEKS_PER_TERM);
      PaddedTwice(topics, n - 1);
      forall i | 0 <= i < |r| ensures r[i].weekNumber == Some(i + 1) { PaddedAt(topics, WEEKS_PER_TERM, i + 1); }
      FirstForInOrder(r, |r|, n);
      PaddedAt(topics, WEEKS_PER_TERM, n);
      var own := FirstFor(topics, |topics|, n);
      if own.Some? {
        EnsureTwice(own.value, n);
      } else {
        EnsureFiller(n, if n == 1 then None else Some(Padded(topics, n - 1)[n - 2]));
      }
    }
  }

  lemma {:induction false} LastTermAt(terms: seq<YearTerm>, i: nat, k: int)
    requires i < |terms| && terms[i].term == Some(k)
    requires forall j :: i < j < |terms| ==> terms[j].term != Some(k)
    ensures LastTermTopics(terms, k) == terms[i].topics
  {
    if i < |terms| - 1 { LastTermAt(terms[..|terms| - 1], i, k); }
  }

  lemma RepairedTermTwice(terms: seq<YearTerm>, k: int)
    requires 1 <= k <= FULL_YEAR_TERMS
    ensures RepairedTerm(Repaired(terms), k) == RepairedTerm(terms, k)
  {
    hide Padded;
    var r := Repaired(terms);
    assert r[k - 1] == RepairedTerm(terms, k);
    LastTermAt(r, k - 1, k);
    PaddedTwice(LastTermTopics(terms, k), WEEKS_PER_TERM);
  }

  lemma RepairIdempotent(terms: seq<YearTerm>)
    ensures Repaired(Repaired(terms)) == Repaired(terms)
  {
    hide RepairedTerm;
    forall i | 0 <= i < FULL_YEAR_TERMS ensures Repaired(Repaired(terms))[i] == Repaired(terms)[i] {
      RepairedTermTwice(terms, i + 1);
    }
  }

  // ---------------------------------------------------------------- an answer that already passes is kept

  lemma {:induction false} FirstForOnly(topics: seq<Topic>, n: nat, i: nat)
    requires DistinctWeeks(topics) && i < n <= |topics|
    requires forall j :: 0 <= j < |topics| ==> CheckedWeek(topics, j) > 0
    ensures FirstFor(topics, n, CheckedWeek(topics, i)) == Some(topics[i])
  {
    if i < n - 1 {
      FirstForOnly(topics, n - 1, i);
    } else {
      FirstForNone(topics, n - 1, i);
    }
  }

  lemma {:induction false} FirstForNone(topics: seq<Topic>, n: nat, i: nat)
    requires DistinctWeeks(topics) && n <= i < |topics|
    requires forall j :: 0 <= j < |topics| ==> CheckedWeek(topics, j) > 0
    ensures FirstFor(topics, n, CheckedWeek(topics, i)) == None
  {
    if n > 0 {
      FirstForNone(topics, n - 1, i);
      assert CheckedWeek(topics, n - 1) != CheckedWeek(topics, i);
    }
  }

  /** A full term has no week outside 1..13. */
  lemma FullTermRange(topics: seq<Topic>)
    requires IsFullTerm(topics)
    ensures DistinctWeeks(topics)
    ensures forall i :: 0 <= i < |topics| ==> 1 <= CheckedWeek(topics, i) <= WEEKS_PER_TERM
  {
    FullTermWeeks(topics);
    var weeks := CheckedWeeks(topics);
    forall w | 1 <= w <= WEEKS_PER_TERM ensures w in weeks { assert HasWeek(topics, w); }
    var all := set w | w in weeks && 1 <= w <= WEEKS_PER_TERM;
    ThirteenWeeks(all);
    SubsetSize(all, weeks);
    forall i | 0 <= i < |topics| ensures 1 <= CheckedWeek(topics, i) <= WEEKS_PER_TERM {
      var w := CheckedWeek(topics, i);
      assert w in weeks;
      assert w in all;
    }
  }

  /** The week a full term already has is used as it is: no filler, and its own title whenever it has one. */
  lemma FullTermKept(topics: seq<Topic>, i: nat)
    requires IsFullTerm(topics) && i < |topics|
    ensures 1 <= CheckedWeek(topics, i) <= WEEKS_PER_TERM
    ensures var r := Padded(topics, WEEKS_PER_TERM)[CheckedWeek(topics, i) - 1];
            && r == EnsureReservedWeek(topics[i], CheckedWeek(topics, i))
            && r.title == Some(TextOr(topics[i].title, WeekLabel(CheckedWeek(topics, i))))
  {
    FullTermRange(topics);
    var w := CheckedWeek(topics, i);
    FirstForOnly(topics, |topics|, i);
    PaddedAt(topics, WEEKS_PER_TERM, w);
  }

  lemma TermNumbersDiffer(terms: seq<YearTerm>, t: nat) returns (k: int)
    requires IsFullYear(terms) && t < |terms|
    ensures 1 <= k <= FULL_YEAR_TERMS && terms[t].term == Some(k) && IsFullTerm(terms[t].topics)
    ensures forall j :: 0 <= j < |terms| && j != t ==> terms[j].term != Some(k)
  {
    var a :| 0 <= a < |terms| && terms[a].term == Some(1) && IsFullTerm(terms[a].topics);
    var b :| 0 <= b < |terms| && terms[b].term == Some(2) && IsFullTerm(terms[b].topics);
    var c :| 0 <= c < |terms| && terms[c].term == Some(3) && IsFullTerm(terms[c].topics);
    assert a != b && b != c && a != c;
    k := if t == a then 1 else if t == b then 2 else 3;
  }

  /** The repaired year holds topic `i` of a term under the term's number `k`, in its own week and with its own title. */
  ghost predicate KeepsTopic(repaired: seq<YearTerm>, k: int, topics: seq<Topic>, i: nat)
    requires i < |topics|
  {
    var w := CheckedWeek(topics, i);
    && 1 <= k <= |repaired| && 1 <= w <= |repaired[k - 1].topics|
    && repaired[k - 1].topics[w - 1] == EnsureReservedWeek(topics[i], w)
    && repaired[k - 1].topics[w - 1].title == Some(TextOr(topics[i].title, WeekLabel(w)))
  }

  /** An answer that passes the check gains no filler week and keeps every title that is not empty. */
  lemma PassingAnswerKept(terms: seq<YearTerm>, t: nat, i: nat)
    requires IsFullYear(terms) && t < |terms| && i < |terms[t].topics|
    ensures terms[t].term.Some? && KeepsTopic(Repaired(terms), terms[t].term.value, terms[t].topics, i)
  {
    hide Padded, IsFullTerm, EnsureReservedWeek, WeekLabel;
    var k := TermNumbersDiffer(terms, t);
    LastTermAt(terms, t, k);
    FullTermKept(terms[t].topics, i);
    assert Repaired(terms)[k - 1] == RepairedTerm(terms, k);
  }

  // ---------------------------------------------------------------- what a repaired week says

  /** Topic `i` is written for week `w`: by its own positive number, else by its position. */
  predicate WrittenFor(topics: seq<Topic>, i: nat, w: int)
    requires i < |topics|
  {
    var own := topics[i].weekNumber;
    && (own.Some? && own.value > 0 ==> w == own.value)
    && (own.None? || own.value <= 0 ==> w == i + 1)
  }

  /** Topic `i` is the first one written for week `w`. */
  ghost predicate FirstWrittenFor(topics: seq<Topic>, i: nat, w: int)
    requires i < |topics|
  {
    WrittenFor(topics, i, w) && forall j :: 0 <= j < i ==> !WrittenFor(topics, j, w)
  }

  /** `list` is the given one, or empty when none is given. */
  predicate Given(list: Option<seq<string>>, given: Option<seq<string>>) {
    && list.Some?
    && (given.Some? ==> list.value == given.value)
    && (given.None? ==> list.value == [])
  }

  /** The title is the topic's own, or the week's label, after the standard title where a reserved week needs it. */
  predicate TitledFor(r: Topic, topic: Topic, w: nat) {
    var own := if HasText(topic.title) then topic.title.value else "Week " + Decimal(w);
    && (w == 7 ==> r.title == Some(if MidTermTitle(own) then own else "Mid-term revision: " + own))
    && (w == 12 ==> r.title == Some(if EndOfTermTitle(own) then own else "End-of-term revision: " + own))
    && (w == 13 ==> r.title == Some(if ExaminationTitle(own) then own else "Examination: " + own))
    && (w != 7 && w != 12 && w != 13 ==> r.title == Some(own))
  }

  predicate AssessedFor(r: Topic, topic: Topic, w: nat) {
    && (HasText(topic.assessmentType) ==> r.assessmentType == topic.assessmentType)
    && (!HasText(topic.assessmentType) ==>
          && (w == 13 ==> r.assessmentType == Some("Examination"))
          && (w == 7 || w == 12 ==> r.assessmentType == Some("Revision"))
          && (w != 7 && w != 12 && w != 13 ==> r.assessmentType == Some("")))
  }

  /** Week `w` of the repaired term carries what its topic says. */
  predicate Carries(r: Topic, topic: Topic, w: nat) {
    && r.weekNumber == Some(w)
    && TitledFor(r, topic, w)
    && r.description == topic.description
    && Given(r.subTopics, topic.subTopics)
    && Given(r.learningOutcomes, topic.learningOutcomes)
    && Given(r.studentFriendlyOutcomes, topic.studentFriendlyOutcomes)
    && Given(r.suggestedActivities, topic.suggestedActivities)
    && Given(r.resources, topic.resources)
    && AssessedFor(r, topic, w)
    && (topic.order.Some? && topic.order.value != 0 ==> r.order == topic.order)
    && (topic.order.None? || topic.order.value == 0 ==> r.order == Some(w))
  }

  lemma EnsureCarries(topic: Topic, w: nat)
    requires 1 <= w <= WEEKS_PER_TERM
    ensures Carries(EnsureReservedWeek(topic, w), topic, w)
  {
    hide MidTermTitle, EndOfTermTitle, ExaminationTitle, ReservedTitle;
    EnsureTitled(topic, w);
  }

  lemma EnsureTitled(topic: Topic, w: nat)
    requires 1 <= w <= WEEKS_PER_TERM
    ensures TitledFor(EnsureReservedWeek(topic, w), topic, w)
  {
    hide MidTermTitle, EndOfTermTitle, ExaminationTitle;
    var own := if HasText(topic.title) then topic.title.value else "Week " + Decimal(w);
    EnsureShape(topic, w);
    assert TextOr(topic.title, WeekLabel(w)) == own;
    if w == 7 { assert "Mid-term revision: " + own == "Mid-term revision" + ": " + own; }
    if w == 12 { assert "End-of-term revision: " + own == "End-of-term revision" + ": " + own; }
    if w == 13 { assert "Examination: " + own == "Examination" + ": " + own; }
  }

  lemma {:induction false} FirstForFirst(topics: seq<Topic>, n: nat, i: nat, w: int)
    requires i < n <= |topics| && FirstWrittenFor(topics, i, w)
    ensures FirstFor(topics, n, w) == Some(topics[i])
  {
    if i < n - 1 { FirstForFirst(topics, n - 1, i, w); } else { NothingWrittenFor(topics, i, w); }
  }

  lemma {:induction false} NothingWrittenFor(topics: seq<Topic>, n: nat, w: int)
    requires n <= |topics| && forall j :: 0 <= j < n ==> !WrittenFor(topics, j, w)
    ensures FirstFor(topics, n, w) == None
  {
    if n > 0 {
      NothingWrittenFor(topics, n - 1, w);
      assert !WrittenFor(topics, n - 1, w);
    }
  }

  /** Term `j` is the last of the answer that is numbered `k`. */
  ghost predicate LastNumbered(terms: seq<YearTerm>, j: nat, k: int)
    requires j < |terms|
  {
    terms[j].term == Some(k) && forall i :: j < i < |terms| ==> terms[i].term != Some(k)
  }

  /** Whatever the answer: a week carries the first topic written for it in the last term of its number. */
  lemma RepairedCarriesOwnTopic(terms: seq<YearTerm>, j: nat, k: int, i: nat, w: nat)
    requires j < |terms| && 1 <= k <= FULL_YEAR_TERMS && LastNumbered(terms, j, k)
    requires i < |terms[j].topics| && 1 <= w <= WEEKS_PER_TERM && FirstWrittenFor(terms[j].topics, i, w)
    ensures |Repaired(terms)[k - 1].topics| == WEEKS_PER_TERM
    ensures Carries(Repaired(terms)[k - 1].topics[w - 1], terms[j].topics[i], w)
  {
    hide Padded, EnsureReservedWeek, Carries;
    LastTermAt(terms, j, k);
    FirstForFirst(terms[j].topics, |terms[j].topics|, i, w);
    PaddedAt(terms[j].topics, WEEKS_PER_TERM, w);
    EnsureCarries(terms[j].topics[i], w);
    assert Repaired(terms)[k - 1] == RepairedTerm(terms, k);
  }

  /** No topic is written for week `w` in the last term numbered `k`, or there is no such term. */
  ghost predicate NobodyWrote(terms: seq<YearTerm>, k: int, w: int) {
    forall j, i :: 0 <= j < |terms| && LastNumbered(terms, j, k) && 0 <= i < |terms[j].topics| ==>
      !WrittenFor(terms[j].topics, i, w)
  }

  /** Lists are continued from the week before, or start with `first` where there is none. */
  predicate Continued(list: Option<seq<string>>, before: Option<seq<string>>, first: seq<string>) {
    && (before.Some? ==> list == before)
    && (before.None? ==> list == Some(first))
  }

  predicate ContinuedText(text: Option<string>, before: Option<string>, first: string) {
    && (HasText(before) ==> text == before)
    && (!HasText(before) ==> text == Some(first))
  }

  /** An ordinary week that nobody wrote goes on with the week before. */
  predicate GoesOn(r: Topic, before: Topic, w: nat) {
    && (HasText(before.title) ==> r.title == Some("Continuation: " + before.title.value))
    && (!HasText(before.title) ==> r.title == Some("Week " + Decimal(w)))
    && ContinuedText(r.description, before.description, "Continue work from the previous week.")
    && Continued(r.subTopics, before.subTopics, [])
    && (before.learningOutcomes.Some? && before.learningOutcomes.value != [] ==> r.learningOutcomes == before.learningOutcomes)
    && (before.learningOutcomes.None? || before.learningOutcomes.value == [] ==>
          r.learningOutcomes == Some(["Continue learning from "
                                      + (if HasText(before.title) then before.title.value else "the previous week") + "."]))
    && Continued(r.studentFriendlyOutcomes, before.studentFriendlyOutcomes, ["I can keep practising this topic."])
    && Continued(r.suggestedActivities, before.suggestedActivities, ["Guided practice and class discussion."])
    && Continued(r.resources, before.resources, [])
    && ContinuedText(r.assessmentType, before.assessmentType, "Classwork")
  }

  /** A reserved week that nobody wrote has its standard texts. */
  predicate Standard(r: Topic, before: Topic, w: nat) {
    && (w == 7 ==> r.title == Some("Mid-term revision") && r.description == Some("Standard " + "mid-term revision" + " week."))
    && (w == 12 ==> r.title == Some("End-of-term revision") && r.description == Some("Standard " + "end-of-term revision" + " week."))
    && (w == 13 ==> r.title == Some("Examination") && r.description == Some("Standard " + "examination" + " week."))
    && (w == 13 ==> r.assessmentType == Some("Examination"))
    && (w != 13 ==> r.assessmentType == Some("Revision"))
    && (w == 13 ==>
          && r.learningOutcomes == Some(["Demonstrate mastery of the term\U{2019}s topics through examination."])
          && r.studentFriendlyOutcomes == Some(["I can show what I learned this term."])
          && r.suggestedActivities == Some(["Sit the end-of-term examination."]))
    && (w != 13 ==>
          && r.learningOutcomes == Some(["Review and consolidate the term\U{2019}s topics so far."])
          && r.studentFriendlyOutcomes == Some(["I can recall and practise the topics we have covered."])
          && r.suggestedActivities == Some(["Revise notes, past questions, and classwork."]))
    && Continued(r.subTopics, before.subTopics, [])
    && Continued(r.resources, before.resources, [])
  }

  predicate Fills(r: Topic, before: Topic, w: nat) {
    && r.weekNumber == Some(w) && r.order == Some(w)
    && if w == 7 || w == 12 || w == 13 then Standard(r, before, w) else GoesOn(r, before, w)
  }

  lemma FillerGoesOn(w: nat, previous: Option<Topic>)
    requires 1 <= w <= WEEKS_PER_TERM && w != 7 && w != 12 && w != 13
    ensures Fills(MakeFillerWeek(w, previous), previous.GetOr(BLANK), w)
  {
  }

  lemma FillerIsStandard(w: nat, previous: Option<Topic>)
    requires w == 7 || w == 12 || w == 13
    ensures Fills(MakeFillerWeek(w, previous), previous.GetOr(BLANK), w)
  {
    hide *;
    if w == 7 { MidTermFiller(previous); } else if w == 12 { EndOfTermFiller(previous); } else { ExaminationFiller(previous); }
  }

  lemma MidTermFiller(previous: Option<Topic>)
    ensures Fills(MakeFillerWeek(7, previous), previous.GetOr(BLANK), 7)
  {
    hide Lower;
    StandardDescription(7);
  }

  lemma EndOfTermFiller(previous: Option<Topic>)
    ensures Fills(MakeFillerWeek(12, previous), previous.GetOr(BLANK), 12)
  {
    hide Lower;
    StandardDescription(12);
  }

  lemma ExaminationFiller(previous: Option<Topic>)
    ensures Fills(MakeFillerWeek(13, previous), previous.GetOr(BLANK), 13)
  {
    hide Lower;
    StandardDescription(13);
  }

  lemma StandardDescription(w: nat)
    requires w == 7 || w == 12 || w == 13
    ensures var text := "Standard " + Lower(StandardTitle(w).value) + " week.";
            && (w == 7 ==> text == "Standard " + "mid-term revision" + " week.")
            && (w == 12 ==> text == "Standard " + "end-of-term revision" + " week.")
            && (w == 13 ==> text == "Standard " + "examination" + " week.")
  {
    hide Lower;
    if w == 7 { LowerMidTerm(); } else if w == 12 { LowerEndOfTerm(); } else { LowerExamination(); }
  }

  lemma LowerMidTerm()
    ensures Lower("Mid-term revision") == "mid-term revision"
  {
  }

  lemma LowerEndOfTerm()
    ensures Lower("End-of-term revision") == "end-of-term revision"
  {
  }

  lemma LowerExamination()
    ensures Lower("Examination") == "examination"
  {
  }

  lemma LastTermWeekEmpty(terms: seq<YearTerm>, k: int, w: int)
    requires NobodyWrote(terms, k, w)
    ensures FirstFor(LastTermTopics(terms, k), |LastTermTopics(terms, k)|, w) == None
  {
    if j :| 0 <= j < |terms| && LastNumbered(terms, j, k) {
      LastTermAt(terms, j, k);
      NothingWrittenFor(terms[j].topics, |terms[j].topics|, w);
    } else {
      NoTerm(terms, k);
    }
  }

  lemma {:induction false} NoTerm(terms: seq<YearTerm>, k: int)
    requires forall j :: 0 <= j < |terms| ==> !LastNumbered(terms, j, k)
    ensures LastTermTopics(terms, k) == []
  {
    if terms != [] {
      var n := |terms| - 1;
      assert !LastNumbered(terms, n, k);
      forall j | 0 <= j < n ensures !LastNumbered(terms[..n], j, k) { LastNumberedPrefix(terms, j, k); }
      NoTerm(terms[..n], k);
    }
  }

  lemma LastNumberedPrefix(terms: seq<YearTerm>, j: nat, k: int)
    requires j < |terms| - 1 && terms[|terms| - 1].term != Some(k)
    ensures LastNumbered(terms[..|terms| - 1], j, k) <==> LastNumbered(terms, j, k)
  {
  }

  /** Whatever the answer: a week that nobody wrote is filled from the week before it. */
  lemma RepairedFillsTheRest(terms: seq<YearTerm>, k: int, w: nat)
    requires 1 <= k <= FULL_YEAR_TERMS && 1 <= w <= WEEKS_PER_TERM && NobodyWrote(terms, k, w)
    ensures |Repaired(terms)[k - 1].topics| == WEEKS_PER_TERM
    ensures var weeks := Repaired(terms)[k - 1].topics;
            Fills(weeks[w - 1], if w == 1 then BLANK else weeks[w - 2], w)
  {
    hide Padded, MakeFillerWeek, Fills;
    var topics := LastTermTopics(terms, k);
    LastTermWeekEmpty(terms, k, w);
    assert Repaired(terms)[k - 1] == RepairedTerm(terms, k);
    PaddedAt(topics, WEEKS_PER_TERM, w);
    PaddedNext(topics, w);
    if w > 1 { PaddedAt(topics, WEEKS_PER_TERM, w - 1); PaddedAt(topics, w - 1, w - 1); }
    var previous := if w == 1 then None else Some(Padded(topics, w - 1)[w - 2]);
    if w == 7 || w == 12 || w == 13 { FillerIsStandard(w, previous); } else { FillerGoesOn(w, previous); }
  }
}
