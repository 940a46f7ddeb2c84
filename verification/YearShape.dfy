/**
 The shape of a full year: the check that a consolidated answer must pass, the repair that makes any
 answer pass it, and the completeness test behind the publish gate
 (src/agora-curriculum/full-year-curriculum.util.ts).
 */
module YearShape {
  import opened Prelude
  import opened Decimals
  import opened ParsedTerms
  import opened MappedYear

  datatype Topic = Topic(
    title: Option<string>,
    description: Option<string>,
    weekNumber: Option<int>,
    subTopics: Option<seq<string>>,
    learningOutcomes: Option<seq<string>>,
    studentFriendlyOutcomes: Option<seq<string>>,
    suggestedActivities: Option<seq<string>>,
    resources: Option<seq<string>>,
    assessmentType: Option<string>,
    order: Option<int>)

  /** A term of the answer; absent topics read as none. */
  datatype YearTerm = YearTerm(term: Option<int>, topics: seq<Topic>)

  // ---------------------------------------------------------------- title patterns

  predicate OccursAt(s: string, part: string, i: nat) {
    i + |part| <= |s| && s[i..i + |part|] == part
  }

  predicate Contains(s: string, part: string) {
    exists i :: 0 <= i <= |s| && OccursAt(s, part, i)
  }

  /** `/mid[- ]?term|revision/i` */
  predicate MidTermTitle(title: string) {
    var t := Lower(title);
    Contains(t, "midterm") || Contains(t, "mid-term") || Contains(t, "mid term") || Contains(t, "revision")
  }

  function EndOfTerm(a: string, b: string): string { "end" + a + "of" + b + "term" }

  /** `/revision|end[- ]?of[- ]?term/i` */
  predicate EndOfTermTitle(title: string) {
    var t := Lower(title);
    Contains(t, "revision")
    || exists a, b | a in ["", "-", " "] && b in ["", "-", " "] :: Contains(t, EndOfTerm(a, b))
  }

  /** `/exam/i` */
  predicate ExaminationTitle(title: string) {
    Contains(Lower(title), "exam")
  }

  /** Weeks 7, 12 and 13 are reserved; any other week takes any title. */
  predicate ReservedTitleOk(week: int, title: string) {
    (week == 7 ==> MidTermTitle(title)) && (week == 12 ==> EndOfTermTitle(title)) && (week == 13 ==> ExaminationTitle(title))
  }

  predicate Reserved(week: int) { week == 7 || week == 12 || week == 13 }

  lemma ContainsExtended(a: string, b: string, part: string)
    requires Contains(Lower(a), part)
    ensures Contains(Lower(a + b), part)
  {
    var i :| 0 <= i <= |Lower(a)| && OccursAt(Lower(a), part, i);
    assert Lower(a + b) == Lower(a) + Lower(b);
    assert OccursAt(Lower(a + b), part, i);
  }

  /** A standard title fits its week, alone and as a prefix of any other text. */
  lemma StandardTitleFits(week: int, rest: string)
    requires Reserved(week)
    ensures StandardTitle(week).Some?
    ensures ReservedTitleOk(week, StandardTitle(week).value) && ReservedTitleOk(week, StandardTitle(week).value + rest)
  {
    var t := StandardTitle(week).value;
    var part, at := if week == 7 then "revision" else if week == 12 then "revision" else "exam",
                    if week == 7 then 9 else if week == 12 then 12 else 0;
    assert OccursAt(Lower(t), part, at) by {
      assert forall i :: 0 <= i < |part| ==> Lower(t)[at + i] == part[i];
      assert Lower(t)[at..at + |part|] == part;
    }
    ContainsExtended(t, rest, part);
  }

  // ---------------------------------------------------------------- the check

  datatype YearError =
    | MissingTerms
    | WrongTermCount(count: nat)
    | WrongTermNumbers
    | WrongWeekCount(term: int, count: nat)
    | DuplicateOrMissingWeeks(term: int)
    | MissingWeek(term: int, week: int)
    | WrongTitle(term: int, week: int)

  /** `Number(topic.weekNumber) || index + 1` */
  function CheckedWeek(topics: seq<Topic>, i: nat): int
    requires i < |topics|
  {
    if topics[i].weekNumber.Some? && topics[i].weekNumber.value != 0 then topics[i].weekNumber.value else i + 1
  }

  function CheckedWeeks(topics: seq<Topic>): set<int> {
    set i | 0 <= i < |topics| :: CheckedWeek(topics, i)
  }

  /** The topic that the check reads as week `w`: the last one numbered so. */
  function TopicOfWeek(topics: seq<Topic>, n: nat, w: int): Option<Topic>
    requires n <= |topics|
  {
    if n == 0 then None
    else if CheckedWeek(topics, n - 1) == w then Some(topics[n - 1])
    else TopicOfWeek(topics, n - 1, w)
  }

  predicate TitleFits(topic: Topic, w: int) {
    topic.title.Some? && topic.title.value != "" && ReservedTitleOk(w, topic.title.value)
  }

  predicate TitleAccepted(topics: seq<Topic>, w: int) {
    var t := TopicOfWeek(topics, |topics|, w);
    t.Some? && TitleFits(t.value, w)
  }

  function FirstMissingWeek(weeks: set<int>, from: int): Option<int>
    decreases WEEKS_PER_TERM + 1 - from
  {
    if from > WEEKS_PER_TERM then None
    else if from !in weeks then Some(from)
    else FirstMissingWeek(weeks, from + 1)
  }

  /** The first complaint about one term, in the order of the source's checks. */
  function TermProblem(term: int, topics: seq<Topic>): Option<YearError> {
    var weeks := CheckedWeeks(topics);
    if |topics| != WEEKS_PER_TERM then Some(WrongWeekCount(term, |topics|))
    else if |weeks| != WEEKS_PER_TERM then Some(DuplicateOrMissingWeeks(term))
    else if FirstMissingWeek(weeks, 1).Some? then Some(MissingWeek(term, FirstMissingWeek(weeks, 1).value))
    else if !TitleAccepted(topics, 7) then Some(WrongTitle(term, 7))
    else if !TitleAccepted(topics, 12) then Some(WrongTitle(term, 12))
    else if !TitleAccepted(topics, 13) then Some(WrongTitle(term, 13))
    else None
  }

  /** `Number(term.term)` as text. */
  function NumberText(t: YearTerm): string { if t.term.Some? then Signed(t.term.value) else "NaN" }

  /** The sort moves a term behind another only if its number is greater; a missing number compares as equal. */
  predicate Greater(a: YearTerm, b: YearTerm) { a.term.Some? && b.term.Some? && a.term.value > b.term.value }

  function Placed(ts: seq<YearTerm>, t: YearTerm): (r: seq<YearTerm>)
    ensures |r| == |ts| + 1
  {
    if ts == [] || !Greater(ts[|ts| - 1], t) then ts + [t] else Placed(ts[..|ts| - 1], t) + [ts[|ts| - 1]]
  }

  /** `[...result.terms].sort((a, b) => Number(a.term) - Number(b.term))` */
  function SortedTerms(ts: seq<YearTerm>): (r: seq<YearTerm>)
    ensures |r| == |ts|
  {
    if ts == [] then [] else Placed(SortedTerms(ts[..|ts| - 1]), ts[|ts| - 1])
  }

  /** `numbers.join(',')` */
  function JoinedNumbers(ts: seq<YearTerm>): string {
    if ts == [] then ""
    else if |ts| == 1 then NumberText(ts[0])
    else NumberText(ts[0]) + "," + JoinedNumbers(ts[1..])
  }

  /** `assertFullYearCurriculum`: None when it returns, otherwise the error it throws. */
  function YearProblem(result: Option<seq<YearTerm>>): Option<YearError> {
    if result.None? then Some(MissingTerms)
    else if |result.value| != FULL_YEAR_TERMS then Some(WrongTermCount(|result.value|))
    else
      var terms := SortedTerms(result.value);
      if JoinedNumbers(terms) != "1,2,3" then Some(WrongTermNumbers)
      else
        var p1, p2, p3 := TermProblem(1, terms[0].topics), TermProblem(2, terms[1].topics), TermProblem(3, terms[2].topics);
        if p1.Some? then p1 else if p2.Some? then p2 else p3
  }

  // ---------------------------------------------------------------- what the check accepts

  ghost predicate HasWeek(topics: seq<Topic>, w: int) {
    exists i :: 0 <= i < |topics| && CheckedWeek(topics, i) == w
  }

  /** Thirteen topics, one for each week, the reserved weeks titled as such. */
  ghost predicate IsFullTerm(topics: seq<Topic>) {
    && |topics| == WEEKS_PER_TERM
    && (forall w :: 1 <= w <= WEEKS_PER_TERM ==> HasWeek(topics, w))
    && (forall i :: 0 <= i < |topics| && Reserved(CheckedWeek(topics, i)) ==>
          TitleFits(topics[i], CheckedWeek(topics, i)))
  }

  /** Three full terms, numbered 1, 2 and 3 in any order. */
  ghost predicate IsFullYear(terms: seq<YearTerm>) {
    && |terms| == FULL_YEAR_TERMS
    && HasFullTerm(terms, 1) && HasFullTerm(terms, 2) && HasFullTerm(terms, 3)
  }

  ghost predicate HasFullTerm(terms: seq<YearTerm>, k: int) {
    exists i :: 0 <= i < |terms| && terms[i].term == Some(k) && IsFullTerm(terms[i].topics)
  }

  ghost function WeeksUpTo(topics: seq<Topic>, n: nat): set<int>
    requires n <= |topics|
  {
    set i | 0 <= i < n :: CheckedWeek(topics, i)
  }

  lemma {:induction false} WeeksUpToSize(topics: seq<Topic>, n: nat)
    requires n <= |topics|
    ensures |WeeksUpTo(topics, n)| <= n
    ensures |WeeksUpTo(topics, n)| == n ==> forall i, j :: 0 <= i < j < n ==> CheckedWeek(topics, i) != CheckedWeek(topics, j)
  {
    if n == 0 {
      assert WeeksUpTo(topics, n) == {};
    } else {
      WeeksUpToSize(topics, n - 1);
      var before, w := WeeksUpTo(topics, n - 1), CheckedWeek(topics, n - 1);
      assert WeeksUpTo(topics, n) == before + {w};
      if w in before { assert before + {w} == before; }
      forall i | 0 <= i < n - 1 && |WeeksUpTo(topics, n)| == n ensures CheckedWeek(topics, i) != w {
        var v := CheckedWeek(topics, i);
        assert v in before;
      }
    }
  }

  lemma {:induction false} FirstMissingWeekNone(weeks: set<int>, from: int)
    requires from <= WEEKS_PER_TERM + 1
    ensures FirstMissingWeek(weeks, from) == None <==> forall w :: from <= w <= WEEKS_PER_TERM ==> w in weeks
    decreases WEEKS_PER_TERM + 1 - from
  {
    if from <= WEEKS_PER_TERM { FirstMissingWeekNone(weeks, from + 1); }
  }

  lemma {:induction false} TopicOfWeekFound(topics: seq<Topic>, n: nat, w: int)
    requires n <= |topics|
    ensures TopicOfWeek(topics, n, w).Some? <==> exists i :: 0 <= i < n && CheckedWeek(topics, i) == w
    ensures TopicOfWeek(topics, n, w).Some? ==>
              exists i :: 0 <= i < n && CheckedWeek(topics, i) == w && TopicOfWeek(topics, n, w) == Some(topics[i])
  {
    if n > 0 { TopicOfWeekFound(topics, n - 1, w); }
  }

  lemma AtLeastThirteen(weeks: set<int>)
    requires forall w :: 1 <= w <= WEEKS_PER_TERM ==> w in weeks
    ensures |weeks| >= WEEKS_PER_TERM
  {
    var all := set w | w in weeks && 1 <= w <= WEEKS_PER_TERM;
    ThirteenWeeks(all);
    SubsetSize(all, weeks);
  }

  /** Covering all thirteen weeks with thirteen topics leaves no room for a duplicate. */
  lemma FullTermWeeks(topics: seq<Topic>)
    requires |topics| == WEEKS_PER_TERM
    ensures (forall w :: 1 <= w <= WEEKS_PER_TERM ==> w in CheckedWeeks(topics))
            <==> |CheckedWeeks(topics)| == WEEKS_PER_TERM && FirstMissingWeek(CheckedWeeks(topics), 1) == None
    ensures (forall w :: 1 <= w <= WEEKS_PER_TERM ==> w in CheckedWeeks(topics))
            ==> forall i, j :: 0 <= i < j < |topics| ==> CheckedWeek(topics, i) != CheckedWeek(topics, j)
  {
    hide FirstMissingWeek, CheckedWeek;
    var weeks := CheckedWeeks(topics);
    FirstMissingWeekNone(weeks, 1);
    assert weeks == WeeksUpTo(topics, |topics|);
    WeeksUpToSize(topics, |topics|);
    if forall w :: 1 <= w <= WEEKS_PER_TERM ==> w in weeks { AtLeastThirteen(weeks); }
  }

  ghost predicate DistinctWeeks(topics: seq<Topic>) {
    forall i, j :: 0 <= i < j < |topics| ==> CheckedWeek(topics, i) != CheckedWeek(topics, j)
  }

  lemma TitleAcceptedAt(topics: seq<Topic>, w: int, i: nat)
    requires DistinctWeeks(topics) && i < |topics| && CheckedWeek(topics, i) == w
    ensures TitleAccepted(topics, w) <==> TitleFits(topics[i], w)
  {
    TopicOfWeekFound(topics, |topics|, w);
    var j :| 0 <= j < |topics| && CheckedWeek(topics, j) == w && TopicOfWeek(topics, |topics|, w) == Some(topics[j]);
    assert i == j;
  }

  lemma ReservedTitles(topics: seq<Topic>)
    requires DistinctWeeks(topics)
    requires HasWeek(topics, 7) && HasWeek(topics, 12) && HasWeek(topics, 13)
    ensures TitleAccepted(topics, 7) && TitleAccepted(topics, 12) && TitleAccepted(topics, 13) <==>
            forall i :: 0 <= i < |topics| && Reserved(CheckedWeek(topics, i)) ==> TitleFits(topics[i], CheckedWeek(topics, i))
  {
    forall i | 0 <= i < |topics| && Reserved(CheckedWeek(topics, i))
      ensures TitleAccepted(topics, CheckedWeek(topics, i)) <==> TitleFits(topics[i], CheckedWeek(topics, i))
    {
      TitleAcceptedAt(topics, CheckedWeek(topics, i), i);
    }
  }

  lemma TermAccepted(term: int, topics: seq<Topic>)
    ensures TermProblem(term, topics) == None <==> IsFullTerm(topics)
  {
    if |topics| == WEEKS_PER_TERM {
      FullTermWeeks(topics);
      forall w ensures w in CheckedWeeks(topics) <==> HasWeek(topics, w) { }
      if forall w :: 1 <= w <= WEEKS_PER_TERM ==> HasWeek(topics, w) { ReservedTitles(topics); }
    }
  }

  /** Topic `i` is read as week `w`: by its number, or by its place when that is missing or zero. */
  predicate ReadAsWeek(topics: seq<Topic>, i: nat, w: int)
    requires i < |topics|
  {
    var n := topics[i].weekNumber;
    (n == Some(w) && w != 0) || ((n == None || n == Some(0)) && w == i + 1)
  }

  ghost predicate WeekIsRead(topics: seq<Topic>, w: int) {
    exists i: nat :: i < |topics| && ReadAsWeek(topics, i, w)
  }

  /** A term passes with thirteen topics that are read as weeks 1 to 13, those of the reserved weeks under a fitting title. */
  lemma AcceptedTermIs(term: int, topics: seq<Topic>)
    ensures TermProblem(term, topics) == None <==>
              && |topics| == 13
              && (forall w :: 1 <= w <= 13 ==> WeekIsRead(topics, w))
              && (forall i: nat, w :: i < |topics| && (w == 7 || w == 12 || w == 13) && ReadAsWeek(topics, i, w) ==>
                    HasText(topics[i].title) && ReservedTitleOk(w, topics[i].title.value))
  {
    hide TermProblem, ReservedTitleOk, CheckedWeek, ReadAsWeek;
    TermAccepted(term, topics);
    forall i: nat, w | i < |topics| ensures CheckedWeek(topics, i) == w <==> ReadAsWeek(topics, i, w) {
      ReadAsChecked(topics, i, w);
    }
    forall w ensures HasWeek(topics, w) <==> WeekIsRead(topics, w) {
      if HasWeek(topics, w) {
        var i: nat :| i < |topics| && CheckedWeek(topics, i) == w;
        assert ReadAsWeek(topics, i, w);
      }
    }
    forall i | 0 <= i < |topics| ensures ReadAsWeek(topics, i, CheckedWeek(topics, i)) { }
  }

  lemma ReadAsChecked(topics: seq<Topic>, i: nat, w: int)
    requires i < |topics|
    ensures CheckedWeek(topics, i) == w <==> ReadAsWeek(topics, i, w)
  {
  }

  // ---------------------------------------------------------------- the order of the terms

  lemma {:induction false} PlacedMember(ts: seq<YearTerm>, t: YearTerm, x: YearTerm)
    ensures x in Placed(ts, t) <==> x in ts || x == t
  {
    if ts != [] && Greater(ts[|ts| - 1], t) {
      PlacedMember(ts[..|ts| - 1], t, x);
      assert ts == ts[..|ts| - 1] + [ts[|ts| - 1]];
    }
  }

  lemma {:induction false} SortedMember(ts: seq<YearTerm>, x: YearTerm)
    ensures x in SortedTerms(ts) <==> x in ts
  {
    if ts != [] {
      SortedMember(ts[..|ts| - 1], x);
      PlacedMember(SortedTerms(ts[..|ts| - 1]), ts[|ts| - 1], x);
      assert ts == ts[..|ts| - 1] + [ts[|ts| - 1]];
    }
  }

  ghost predicate Numbered(ts: seq<YearTerm>) { forall i :: 0 <= i < |ts| ==> ts[i].term.Some? }

  ghost predicate InNumberOrder(ts: seq<YearTerm>) {
    Numbered(ts) && forall i, j :: 0 <= i < j < |ts| ==> ts[i].term.value <= ts[j].term.value
  }

  lemma {:induction false} PlacedInOrder(ts: seq<YearTerm>, t: YearTerm)
    requires InNumberOrder(ts) && t.term.Some?
    ensures InNumberOrder(Placed(ts, t))
  {
    if ts != [] && Greater(ts[|ts| - 1], t) {
      var init, last := ts[..|ts| - 1], ts[|ts| - 1];
      PlacedInOrder(init, t);
      var placed := Placed(init, t);
      forall i | 0 <= i < |placed| ensures placed[i].term.value <= last.term.value {
        PlacedMember(init, t, placed[i]);
        assert placed[i] in placed;
      }
    }
  }

  lemma {:induction false} SortedInOrder(ts: seq<YearTerm>)
    requires Numbered(ts)
    ensures InNumberOrder(SortedTerms(ts))
  {
    if ts != [] {
      SortedInOrder(ts[..|ts| - 1]);
      PlacedInOrder(SortedTerms(ts[..|ts| - 1]), ts[|ts| - 1]);
    }
  }

  ghost predicate HasNumber(ts: seq<YearTerm>, k: int) { exists i :: 0 <= i < |ts| && ts[i].term == Some(k) }

  lemma SortedHasNumber(ts: seq<YearTerm>, k: int)
    ensures HasNumber(ts, k) <==> HasNumber(SortedTerms(ts), k)
  {
    var sorted := SortedTerms(ts);
    if i :| 0 <= i < |ts| && ts[i].term == Some(k) { SortedMember(ts, ts[i]); }
    if i :| 0 <= i < |sorted| && sorted[i].term == Some(k) { SortedMember(ts, sorted[i]); }
  }

  lemma NumberTextIs(t: YearTerm, d: nat)
    requires 1 <= d < 10
    ensures Without(NumberText(t), ',')
    ensures NumberText(t) == [Digit(d)] <==> t.term == Some(d)
  {
    if t.term.Some? {
      hide Signed;
      SignedWithout(t.term.value, ',');
      SignedDigit(t.term.value, d);
    } else {
      assert |NumberText(t)| == 3;
    }
  }

  /** The joined text determines the three numbers. */
  lemma JoinedIs123(ts: seq<YearTerm>)
    requires |ts| == FULL_YEAR_TERMS
    ensures JoinedNumbers(ts) == "1,2,3" <==> ts[0].term == Some(1) && ts[1].term == Some(2) && ts[2].term == Some(3)
  {
    hide NumberText;
    var a, b, c := NumberText(ts[0]), NumberText(ts[1]), NumberText(ts[2]);
    NumberTextIs(ts[0], 1);
    NumberTextIs(ts[1], 2);
    NumberTextIs(ts[2], 3);
    assert JoinedNumbers(ts[1..][1..]) == c;
    assert JoinedNumbers(ts[1..]) == b + "," + c;
    assert JoinedNumbers(ts) == a + "," + (b + "," + c);
    assert "1,2,3" == "1" + "," + ("2" + "," + "3");
    if JoinedNumbers(ts) == "1,2,3" {
      CutAtFirst(a, b + "," + c, "1", "2" + "," + "3", ',');
      CutAtFirst(b, c, "2", "3", ',');
    }
  }

  /** Three terms are sorted to 1, 2, 3 exactly when each of the numbers occurs. */
  lemma SortedIs123(ts: seq<YearTerm>)
    requires |ts| == FULL_YEAR_TERMS
    ensures JoinedNumbers(SortedTerms(ts)) == "1,2,3" <==> HasNumber(ts, 1) && HasNumber(ts, 2) && HasNumber(ts, 3)
  {
    hide JoinedNumbers, SortedTerms;
    var sorted := SortedTerms(ts);
    JoinedIs123(sorted);
    SortedHasNumber(ts, 1);
    SortedHasNumber(ts, 2);
    SortedHasNumber(ts, 3);
    if HasNumber(ts, 1) && HasNumber(ts, 2) && HasNumber(ts, 3) {
      AllNumbered(ts);
      SortedInOrder(ts);
      InOrderIs123(sorted);
    }
  }

  lemma AllNumbered(ts: seq<YearTerm>)
    requires |ts| == FULL_YEAR_TERMS && HasNumber(ts, 1) && HasNumber(ts, 2) && HasNumber(ts, 3)
    ensures Numbered(ts)
  {
    var a :| 0 <= a < |ts| && ts[a].term == Some(1);
    var b :| 0 <= b < |ts| && ts[b].term == Some(2);
    var c :| 0 <= c < |ts| && ts[c].term == Some(3);
    forall i | 0 <= i < |ts| ensures ts[i].term.Some? { assert i == a || i == b || i == c; }
  }

  lemma InOrderIs123(ts: seq<YearTerm>)
    requires |ts| == FULL_YEAR_TERMS && InNumberOrder(ts) && HasNumber(ts, 1) && HasNumber(ts, 2) && HasNumber(ts, 3)
    ensures ts[0].term == Some(1) && ts[1].term == Some(2) && ts[2].term == Some(3)
  {
    var a :| 0 <= a < |ts| && ts[a].term == Some(1);
    var b :| 0 <= b < |ts| && ts[b].term == Some(2);
    var c :| 0 <= c < |ts| && ts[c].term == Some(3);
    assert a < b < c;
  }

  lemma SortedHasFullTerm(ts: seq<YearTerm>, k: int)
    ensures HasFullTerm(ts, k) <==> HasFullTerm(SortedTerms(ts), k)
  {
    hide IsFullTerm, SortedTerms;
    var sorted := SortedTerms(ts);
    if i :| 0 <= i < |ts| && ts[i].term == Some(k) && IsFullTerm(ts[i].topics) { SortedMember(ts, ts[i]); }
    if i :| 0 <= i < |sorted| && sorted[i].term == Some(k) && IsFullTerm(sorted[i].topics) { SortedMember(ts, sorted[i]); }
  }

  /** The check returns exactly on a full year. */
  lemma CheckAcceptsExactlyFullYears(terms: seq<YearTerm>)
    ensures YearProblem(Some(terms)) == None <==> IsFullYear(terms)
  {
    hide TermProblem, IsFullTerm, SortedTerms, JoinedNumbers;
    if |terms| == FULL_YEAR_TERMS {
      var sorted := SortedTerms(terms);
      SortedIs123(terms);
      JoinedIs123(sorted);
      SortedHasFullTerm(terms, 1);
      SortedHasFullTerm(terms, 2);
      SortedHasFullTerm(terms, 3);
      TermAccepted(1, sorted[0].topics);
      TermAccepted(2, sorted[1].topics);
      TermAccepted(3, sorted[2].topics);
    }
  }

  // ---------------------------------------------------------------- what the errors say

  lemma {:induction false} FirstMissingIsFirst(weeks: set<int>, from: int)
    requires from <= WEEKS_PER_TERM + 1
    ensures var m := FirstMissingWeek(weeks, from);
            m.Some? ==> from <= m.value <= WEEKS_PER_TERM && m.value !in weeks && forall w :: from <= w < m.value ==> w in weeks
    decreases WEEKS_PER_TERM + 1 - from
  {
    if from <= WEEKS_PER_TERM && from in weeks { FirstMissingIsFirst(weeks, from + 1); }
  }

  /** Some topic of week `w` has no title that fits. */
  ghost predicate BadTitle(topics: seq<Topic>, w: int) {
    exists i :: 0 <= i < |topics| && CheckedWeek(topics, i) == w
      && (topics[i].title.None? || topics[i].title.value == "" || !ReservedTitleOk(w, topics[i].title.value))
  }

  /** The complaint about a term is true of it, and is the first one in the order of the checks. */
  ghost predicate TrueOf(e: YearError, term: int, topics: seq<Topic>) {
    match e
    case WrongWeekCount(t, n) => t == term && n == |topics| && n != 13
    case DuplicateOrMissingWeeks(t) => t == term && |topics| == 13 && !DistinctWeeks(topics)
    case MissingWeek(t, w) =>
      && t == term && |topics| == 13 && DistinctWeeks(topics)
      && 1 <= w <= 13 && !HasWeek(topics, w) && forall v :: 1 <= v < w ==> HasWeek(topics, v)
    case WrongTitle(t, w) =>
      && t == term && |topics| == 13 && (forall v :: 1 <= v <= 13 ==> HasWeek(topics, v))
      && (w == 7 || w == 12 || w == 13) && BadTitle(topics, w)
      && (w > 7 ==> !BadTitle(topics, 7)) && (w > 12 ==> !BadTitle(topics, 12))
    case _ => false
  }

  lemma BadTitleIs(topics: seq<Topic>, w: int)
    requires DistinctWeeks(topics) && HasWeek(topics, w)
    ensures BadTitle(topics, w) <==> !TitleAccepted(topics, w)
  {
    hide ReservedTitleOk;
    var i :| 0 <= i < |topics| && CheckedWeek(topics, i) == w;
    TitleAcceptedAt(topics, w, i);
    if j :| 0 <= j < |topics| && CheckedWeek(topics, j) == w && !TitleFits(topics[j], w) { assert j == i; }
  }

  lemma HasWeekIs(topics: seq<Topic>, w: int)
    ensures HasWeek(topics, w) <==> w in CheckedWeeks(topics)
  {
  }

  lemma TermErrorIsTrue(term: int, topics: seq<Topic>)
    ensures TermProblem(term, topics).Some? ==> TrueOf(TermProblem(term, topics).value, term, topics)
  {
    hide TitleAccepted, FirstMissingWeek, CheckedWeek, BadTitle, HasWeek, CheckedWeeks, DistinctWeeks;
    if |topics| == WEEKS_PER_TERM {
      var weeks := CheckedWeeks(topics);
      forall w ensures HasWeek(topics, w) <==> w in weeks { HasWeekIs(topics, w); }
      DistinctIsThirteen(topics);
      FirstMissingIsFirst(weeks, 1);
      FirstMissingWeekNone(weeks, 1);
      if |weeks| == WEEKS_PER_TERM && FirstMissingWeek(weeks, 1).None? {
        BadTitleIs(topics, 7);
        BadTitleIs(topics, 12);
        BadTitleIs(topics, 13);
      }
    }
  }

  lemma DistinctIsThirteen(topics: seq<Topic>)
    requires |topics| == WEEKS_PER_TERM
    ensures DistinctWeeks(topics) <==> |CheckedWeeks(topics)| == WEEKS_PER_TERM
  {
    assert CheckedWeeks(topics) == WeeksUpTo(topics, |topics|);
    WeeksUpToSize(topics, |topics|);
    if DistinctWeeks(topics) { DistinctFill(topics, |topics|); }
  }

  lemma {:induction false} DistinctFill(topics: seq<Topic>, n: nat)
    requires n <= |topics| && DistinctWeeks(topics)
    ensures |WeeksUpTo(topics, n)| == n
  {
    if n == 0 {
      assert WeeksUpTo(topics, n) == {};
    } else {
      DistinctFill(topics, n - 1);
      assert WeeksUpTo(topics, n) == WeeksUpTo(topics, n - 1) + {CheckedWeek(topics, n - 1)};
    }
  }

  /** `topics` are those of a term numbered `k`. */
  ghost predicate TopicsOf(terms: seq<YearTerm>, k: int, topics: seq<Topic>) {
    exists i :: 0 <= i < |terms| && terms[i] == YearTerm(Some(k), topics)
  }

  /** Every error of the check is true of the answer, and a term is only named when the terms before it are full. */
  lemma YearErrorIsTrue(terms: seq<YearTerm>)
    ensures YearProblem(None) == Some(MissingTerms)
    ensures match YearProblem(Some(terms))
            case None => true
            case Some(MissingTerms) => false
            case Some(WrongTermCount(n)) => n == |terms| && n != 3
            case Some(WrongTermNumbers) => |terms| == 3 && !(HasNumber(terms, 1) && HasNumber(terms, 2) && HasNumber(terms, 3))
            case Some(e) =>
              exists k, topics :: 1 <= k <= 3 && TopicsOf(terms, k, topics) && TrueOf(e, k, topics)
                && forall l :: 1 <= l < k ==> HasFullTerm(terms, l)
  {
    hide TermProblem, IsFullTerm, SortedTerms, JoinedNumbers, TrueOf;
    if |terms| == FULL_YEAR_TERMS {
      var sorted := SortedTerms(terms);
      SortedIs123(terms);
      JoinedIs123(sorted);
      if JoinedNumbers(sorted) == "1,2,3" {
        SortedTermIs(terms, 1);
        SortedTermIs(terms, 2);
        SortedTermIs(terms, 3);
      }
    }
  }

  lemma SortedTermIs(terms: seq<YearTerm>, k: int)
    requires |terms| == FULL_YEAR_TERMS && 1 <= k <= FULL_YEAR_TERMS && SortedTerms(terms)[k - 1].term == Some(k)
    ensures var topics := SortedTerms(terms)[k - 1].topics;
            && TopicsOf(terms, k, topics)
            && (TermProblem(k, topics) == None ==> HasFullTerm(terms, k))
            && (TermProblem(k, topics).Some? ==>
                  TermProblem(k, topics).value.WrongWeekCount? || TermProblem(k, topics).value.DuplicateOrMissingWeeks?
                  || TermProblem(k, topics).value.MissingWeek? || TermProblem(k, topics).value.WrongTitle?)
            && (TermProblem(k, topics).Some? ==> TrueOf(TermProblem(k, topics).value, k, topics))
  {
    hide IsFullTerm, SortedTerms, TrueOf, CheckedWeeks, TitleAccepted, FirstMissingWeek;
    var t := SortedTerms(terms)[k - 1];
    SortedMember(terms, t);
    assert t == YearTerm(Some(k), t.topics);
    TermAccepted(k, t.topics);
    TermErrorIsTrue(k, t.topics);
  }

  // ---------------------------------------------------------------- what the title patterns accept

  /** The title contains the word, whatever the case of its letters. */
  ghost predicate Mentions(title: string, word: string) {
    exists i :: 0 <= i <= |title| && MentionedAt(title, word, i)
  }

  predicate MentionedAt(title: string, word: string, i: nat) {
    i + |word| <= |title| && SameLetters(title[i..i + |word|], word)
  }

  /** `word` is in lower case. */
  predicate SameLetters(text: string, word: string) {
    && |text| == |word|
    && forall i :: 0 <= i < |text| ==>
         text[i] == word[i] || ('A' <= text[i] <= 'Z' && text[i] as int + 32 == word[i] as int)
  }

  predicate IsLowerText(word: string) { forall i :: 0 <= i < |word| ==> !('A' <= word[i] <= 'Z') }

  lemma ContainsMentions(title: string, word: string)
    requires IsLowerText(word)
    ensures Contains(Lower(title), word) <==> Mentions(title, word)
  {
    hide MentionedAt, OccursAt;
    forall i | 0 <= i <= |title| ensures OccursAt(Lower(title), word, i) <==> MentionedAt(title, word, i) {
      LowerOccurs(title, word, i);
    }
  }

  lemma LowerOccurs(title: string, word: string, i: nat)
    requires IsLowerText(word) && i <= |title|
    ensures OccursAt(Lower(title), word, i) <==> MentionedAt(title, word, i)
  {
    if i + |word| <= |title| {
      var text, low := title[i..i + |word|], Lower(title)[i..i + |word|];
      forall k | 0 <= k < |word| ensures low[k] == LowerChar(text[k]) { }
      if SameLetters(text, word) {
        forall k | 0 <= k < |word| ensures low[k] == word[k] { }
        assert low == word;
      }
      if low == word {
        forall k | 0 <= k < |word| ensures text[k] == word[k] || ('A' <= text[k] <= 'Z' && text[k] as int + 32 == word[k] as int) {
          assert LowerChar(text[k]) == word[k];
        }
      }
    }
  }

  /** The title that a reserved week must have: the words that the three patterns spell out. */
  lemma ReservedTitlesMention(title: string)
    ensures ReservedTitleOk(7, title) <==>
              Mentions(title, "midterm") || Mentions(title, "mid-term") || Mentions(title, "mid term")
              || Mentions(title, "revision")
    ensures ReservedTitleOk(12, title) <==>
              || Mentions(title, "revision")
              || Mentions(title, "endofterm") || Mentions(title, "endof-term") || Mentions(title, "endof term")
              || Mentions(title, "end-ofterm") || Mentions(title, "end-of-term") || Mentions(title, "end-of term")
              || Mentions(title, "end ofterm") || Mentions(title, "end of-term") || Mentions(title, "end of term")
    ensures ReservedTitleOk(13, title) <==> Mentions(title, "exam")
  {
    hide Contains, Mentions, Lower;
    ContainsMentions(title, "midterm");
    ContainsMentions(title, "mid-term");
    ContainsMentions(title, "mid term");
    ContainsMentions(title, "revision");
    ContainsMentions(title, "exam");
    EndOfTermMentions(title);
  }

  lemma EndOfTermMentions(title: string)
    ensures EndOfTermTitle(title) <==>
              || Mentions(title, "revision")
              || Mentions(title, "endofterm") || Mentions(title, "endof-term") || Mentions(title, "endof term")
              || Mentions(title, "end-ofterm") || Mentions(title, "end-of-term") || Mentions(title, "end-of term")
              || Mentions(title, "end ofterm") || Mentions(title, "end of-term") || Mentions(title, "end of term")
  {
    hide Contains, Mentions, Lower, EndOfTerm;
    ContainsMentions(title, "revision");
    Spellings();
    EndVariants(title, "", "endofterm", "endof-term", "endof term");
    EndVariants(title, "-", "end-ofterm", "end-of-term", "end-of term");
    EndVariants(title, " ", "end ofterm", "end of-term", "end of term");
    EndOfTermCases(Lower(title));
  }

  lemma EndOfTermCases(t: string)
    ensures (exists a, b | a in ["", "-", " "] && b in ["", "-", " "] :: Contains(t, EndOfTerm(a, b))) <==>
              || Contains(t, EndOfTerm("", "")) || Contains(t, EndOfTerm("", "-")) || Contains(t, EndOfTerm("", " "))
              || Contains(t, EndOfTerm("-", "")) || Contains(t, EndOfTerm("-", "-")) || Contains(t, EndOfTerm("-", " "))
              || Contains(t, EndOfTerm(" ", "")) || Contains(t, EndOfTerm(" ", "-")) || Contains(t, EndOfTerm(" ", " "))
  {
    hide Contains, EndOfTerm;
    var parts := ["", "-", " "];
    assert parts[0] in parts && parts[1] in parts && parts[2] in parts;
  }

  lemma EndVariants(title: string, a: string, none: string, dash: string, blank: string)
    requires none == EndOfTerm(a, "") && dash == EndOfTerm(a, "-") && blank == EndOfTerm(a, " ")
    requires IsLowerText(none) && IsLowerText(dash) && IsLowerText(blank)
    ensures Contains(Lower(title), EndOfTerm(a, "")) <==> Mentions(title, none)
    ensures Contains(Lower(title), EndOfTerm(a, "-")) <==> Mentions(title, dash)
    ensures Contains(Lower(title), EndOfTerm(a, " ")) <==> Mentions(title, blank)
  {
    hide Contains, Mentions, Lower;
    ContainsMentions(title, none);
    ContainsMentions(title, dash);
    ContainsMentions(title, blank);
  }

  /** The nine spellings. */
  lemma Spellings()
    ensures EndOfTerm("", "") == "endofterm" && EndOfTerm("", "-") == "endof-term" && EndOfTerm("", " ") == "endof term"
    ensures EndOfTerm("-", "") == "end-ofterm" && EndOfTerm("-", "-") == "end-of-term" && EndOfTerm("-", " ") == "end-of term"
    ensures EndOfTerm(" ", "") == "end ofterm" && EndOfTerm(" ", "-") == "end of-term" && EndOfTerm(" ", " ") == "end of term"
  {
  }
}
