/**
 What the weeks of a merge or of a grouping say, read off the inputs alone
 (src/agora-curriculum/full-year-curriculum.util.ts).
 */
module ParsedContent {
  import opened Prelude
  import opened ParsedTerms
  import opened MergeLaws
  import opened ParsedSource

  // ---------------------------------------------------------------- how a loose week is read

  predicate Positive(n: Option<int>) { n.Some? && n.value > 0 }

  /** The week at `position` is numbered `n`: by its own positive number, else by its position. */
  predicate NumberedFor(raw: LooseWeek, position: int, n: int) {
    && (Positive(raw.weekNumber) ==> n == raw.weekNumber.value)
    && (!Positive(raw.weekNumber) ==> n == position)
  }

  /** The given list, or none. */
  predicate ListRead(list: seq<string>, given: Option<seq<string>>) {
    && (given.Some? ==> list == given.value)
    && (given.None? ==> list == [])
  }

  /** `w` is what the loose week at `position` says. */
  predicate ReadsAs(raw: LooseWeek, position: int, w: ParsedWeek) {
    && NumberedFor(raw, position, w.weekNumber)
    && (HasText(raw.title) ==> w.title == raw.title.value)
    && (!HasText(raw.title) && HasText(raw.topic) ==> w.title == raw.topic.value)
    && (!HasText(raw.title) && !HasText(raw.topic) ==> w.title == "Untitled topic")
    && w.description == raw.description
    && ListRead(w.subTopics, raw.subTopics)
    && (raw.learningOutcomes.Some? ==> w.learningOutcomes == raw.learningOutcomes.value)
    && (raw.learningOutcomes.None? ==> ListRead(w.learningOutcomes, raw.objectives))
    && ListRead(w.studentFriendlyOutcomes, raw.studentFriendlyOutcomes)
    && ListRead(w.suggestedActivities, raw.suggestedActivities)
    && ListRead(w.resources, raw.resources)
    && (raw.assessmentType.Some? ==> w.assessmentType == raw.assessmentType.value)
    && (raw.assessmentType.None? ==> w.assessmentType == "")
  }

  lemma WeekReads(raw: LooseWeek, position: int)
    ensures ReadsAs(raw, position, AsParsedWeek(raw, position))
  {
  }

  /** Week `n` of term `t` is listed in `r`, and is what the loose week says. */
  ghost predicate ShowsWeek(r: seq<ParsedTerm>, t: int, n: int, raw: LooseWeek, position: int) {
    exists a, b :: 0 <= a < |r| && 0 <= b < |r[a].weeks| && r[a].term == t
      && r[a].weeks[b].weekNumber == n && ReadsAs(raw, position, r[a].weeks[b])
  }

  lemma SlotIsListed(r: seq<ParsedTerm>, t: int, n: int, raw: LooseWeek, position: int)
    requires Canonical(r) && Slot(RawTerms(r), t, n) == Some(AsParsedWeek(raw, position)) && NumberedFor(raw, position, n)
    ensures ShowsWeek(r, t, n, raw, position)
  {
    hide AsParsedWeek, FirstWeek, Slot, ReadsAs;
    WeekReads(raw, position);
    PresentTerm(r, t);
    if a :| 0 <= a < |r| && r[a].term == t {
      SlotAt(r, a, n);
      FirstWeekFound(r[a].weeks, n);
      var w := AsParsedWeek(raw, position);
      var b :| 0 <= b < |r[a].weeks| && r[a].weeks[b] == w;
      assert r[a].weeks[b].weekNumber == n;
    } else {
      SlotAbsent(RawTerms(r), t, n);
    }
  }

  // ---------------------------------------------------------------- merging

  /** Week `j` of list `i` claims week `n` of term `t`. */
  ghost predicate Claims(ts: seq<RawTerm>, i: nat, j: nat, t: int, n: int)
    requires i < |ts| && j < |ts[i].weeks|
  {
    ts[i].term == Some(t) && NumberedFor(ts[i].weeks[j], j + 1, n)
  }

  ghost predicate FirstClaim(ts: seq<RawTerm>, i: nat, j: nat, t: int, n: int)
    requires i < |ts| && j < |ts[i].weeks|
  {
    && Claims(ts, i, j, t, n)
    && (forall l :: 0 <= l < j ==> !Claims(ts, i, l, t, n))
    && (forall k, l :: 0 <= k < i && 0 <= l < |ts[k].weeks| ==> !Claims(ts, k, l, t, n))
  }

  lemma {:induction false} FirstWeekIs(ws: seq<ParsedWeek>, j: nat, n: int)
    requires j < |ws| && ws[j].weekNumber == n && forall l :: 0 <= l < j ==> ws[l].weekNumber != n
    ensures FirstWeek(ws, n) == Some(ws[j])
  {
    if j < |ws| - 1 { FirstWeekIs(ws[..|ws| - 1], j, n); } else { FirstWeekFound(ws[..j], n); }
  }

  lemma WeeksNumbered(raw: seq<LooseWeek>, j: nat, n: int)
    requires j < |raw|
    ensures WeeksOf(raw)[j].weekNumber == n <==> NumberedFor(raw[j], j + 1, n)
  {
    WeekReads(raw[j], j + 1);
  }

  lemma NoWeekNumbered(raw: seq<LooseWeek>, n: int)
    requires forall l :: 0 <= l < |raw| ==> !NumberedFor(raw[l], l + 1, n)
    ensures FirstWeek(WeeksOf(raw), n) == None
  {
    hide AsParsedWeek, NumberedFor;
    var ws := WeeksOf(raw);
    FirstWeekFound(ws, n);
    forall l | 0 <= l < |ws| ensures ws[l].weekNumber != n { WeeksNumbered(raw, l, n); }
  }

  lemma {:induction false} NoClaimNoSlot(ts: seq<RawTerm>, t: int, n: int)
    requires forall k, l :: 0 <= k < |ts| && 0 <= l < |ts[k].weeks| ==> !Claims(ts, k, l, t, n)
    ensures Slot(ts, t, n) == None
  {
    if ts != [] {
      var m := |ts| - 1;
      forall k, l | 0 <= k < m && 0 <= l < |ts[..m][k].weeks| ensures !Claims(ts[..m], k, l, t, n) {
        assert !Claims(ts, k, l, t, n);
      }
      NoClaimNoSlot(ts[..m], t, n);
      if ts[m].term == Some(t) {
        forall l | 0 <= l < |ts[m].weeks| ensures !NumberedFor(ts[m].weeks[l], l + 1, n) { assert !Claims(ts, m, l, t, n); }
        NoWeekNumbered(ts[m].weeks, n);
      }
    }
  }

  lemma {:induction false} FirstClaimSlot(ts: seq<RawTerm>, i: nat, j: nat, t: int, n: int)
    requires i < |ts| && j < |ts[i].weeks| && FirstClaim(ts, i, j, t, n)
    ensures Slot(ts, t, n) == Some(AsParsedWeek(ts[i].weeks[j], j + 1))
  {
    hide AsParsedWeek, NumberedFor;
    var m := |ts| - 1;
    var init := ts[..m];
    if i < m {
      assert Claims(init, i, j, t, n);
      forall l | 0 <= l < j ensures !Claims(init, i, l, t, n) { assert !Claims(ts, i, l, t, n); }
      forall k, l | 0 <= k < i && 0 <= l < |init[k].weeks| ensures !Claims(init, k, l, t, n) { assert !Claims(ts, k, l, t, n); }
      FirstClaimSlot(init, i, j, t, n);
    } else {
      forall k, l | 0 <= k < m && 0 <= l < |init[k].weeks| ensures !Claims(init, k, l, t, n) { assert !Claims(ts, k, l, t, n); }
      NoClaimNoSlot(init, t, n);
      var raw := ts[m].weeks;
      forall l | 0 <= l < j ensures WeeksOf(raw)[l].weekNumber != n {
        assert !Claims(ts, m, l, t, n);
        WeeksNumbered(raw, l, n);
      }
      WeeksNumbered(raw, j, n);
      FirstWeekIs(WeeksOf(raw), j, n);
    }
  }

  /** The first week that claims a slot of the two inputs is the one listed there, field by field. */
  lemma MergedWeekReads(base: seq<RawTerm>, incoming: seq<RawTerm>, r: seq<ParsedTerm>, i: nat, j: nat, t: int, n: int)
    requires IsMerge(base, incoming, r)
    requires i < |base + incoming| && j < |(base + incoming)[i].weeks| && FirstClaim(base + incoming, i, j, t, n)
    ensures ShowsWeek(r, t, n, (base + incoming)[i].weeks[j], j + 1)
  {
    hide AsParsedWeek, Slot, FirstWeek, Canonical, NumberedFor;
    FirstClaimSlot(base + incoming, i, j, t, n);
    SlotConcat(base, incoming, t, n);
    SlotIsListed(r, t, n, (base + incoming)[i].weeks[j], j + 1);
  }

  /** A week that no input claims is not listed. */
  lemma NoClaimNotListed(base: seq<RawTerm>, incoming: seq<RawTerm>, r: seq<ParsedTerm>, a: nat, b: nat)
    requires IsMerge(base, incoming, r) && a < |r| && b < |r[a].weeks|
    ensures exists i, j :: 0 <= i < |base + incoming| && 0 <= j < |(base + incoming)[i].weeks|
              && Claims(base + incoming, i, j, r[a].term, r[a].weeks[b].weekNumber)
  {
    hide Claims, FirstWeek, Slot;
    var all, t, n := base + incoming, r[a].term, r[a].weeks[b].weekNumber;
    SlotAt(r, a, n);
    FirstWeekAt(r[a].weeks, b);
    SlotConcat(base, incoming, t, n);
    if forall i, j :: 0 <= i < |all| && 0 <= j < |all[i].weeks| ==> !Claims(all, i, j, t, n) { NoClaimNoSlot(all, t, n); }
  }

  ghost predicate Unnumbered(ws: seq<LooseWeek>) { forall i :: 0 <= i < |ws| ==> !Positive(ws[i].weekNumber) }

  /** `r` is the one term `t` with the weeks in their order, numbered from 1. */
  ghost predicate OneTermOf(r: seq<ParsedTerm>, t: int, ws: seq<LooseWeek>) {
    && |r| == 1 && r[0].term == t && |r[0].weeks| == |ws|
    && forall i :: 0 <= i < |ws| ==> r[0].weeks[i].weekNumber == i + 1 && ReadsAs(ws[i], i + 1, r[0].weeks[i])
  }

  lemma UnnumberedCanonical(t: int, ws: seq<LooseWeek>)
    requires Unnumbered(ws)
    ensures Canonical([ParsedTerm(t, WeeksOf(ws))]) && OneTermOf([ParsedTerm(t, WeeksOf(ws))], t, ws)
  {
    var weeks := WeeksOf(ws);
    forall i | 0 <= i < |ws| ensures weeks[i].weekNumber == i + 1 && ReadsAs(ws[i], i + 1, weeks[i]) && ValidWeek(weeks[i]) {
      WeekReads(ws[i], i + 1);
    }
  }

  lemma OneTermSlots(t: int, weeks: seq<ParsedWeek>, u: int, n: int)
    requires Canonical([ParsedTerm(t, weeks)])
    ensures Present(RawTerms([ParsedTerm(t, weeks)]), u) <==> u == t
    ensures Slot(RawTerms([ParsedTerm(t, weeks)]), u, n) == if u == t then FirstWeek(weeks, n) else None
  {
    var r := [ParsedTerm(t, weeks)];
    PresentTerm(r, u);
    assert r[0].term == t;
    SlotAt(r, 0, n);
    if u != t { SlotAbsent(RawTerms(r), u, n); }
  }

  /** Merging one term whose weeks carry no number loses none of them. */
  lemma UnnumberedTermMerged(t: int, ws: seq<LooseWeek>, r: seq<ParsedTerm>)
    requires Unnumbered(ws) && IsMerge([], [RawTerm(Some(t), ws)], r)
    ensures OneTermOf(r, t, ws)
  {
    hide WeeksOf, Canonical, FirstWeek, ReadsAs;
    var raw, p := [RawTerm(Some(t), ws)], [ParsedTerm(t, WeeksOf(ws))];
    UnnumberedCanonical(t, ws);
    forall u ensures Present(RawTerms(r), u) <==> Present(RawTerms(p), u) {
      OneTermSlots(t, WeeksOf(ws), u, 0);
      assert raw[0].term == Some(t);
      assert Present(raw, u) <==> u == t;
    }
    forall u, n ensures Slot(RawTerms(r), u, n) == Slot(RawTerms(p), u, n) {
      OneTermSlots(t, WeeksOf(ws), u, n);
      assert raw[..0] == [];
      assert Slot(raw, u, n) == if u == t then FirstWeek(WeeksOf(ws), n) else None;
    }
    CanonicalUnique(r, p);
  }

  // ---------------------------------------------------------------- grouping

  /** A topic belongs to its own term if that is 1, 2 or 3, and to term 1 otherwise. */
  predicate BelongsTo(topic: LooseWeek, t: int) {
    if topic.term.Some? && 1 <= topic.term.value <= 3 then t == topic.term.value else t == 1
  }

  /** How many of the first `i` topics belong to term `t`. */
  function CountBefore(topics: seq<LooseWeek>, i: nat, t: int): nat
    requires i <= |topics|
  {
    if i == 0 then 0 else CountBefore(topics, i - 1, t) + if BelongsTo(topics[i - 1], t) then 1 else 0
  }

  lemma BelongsToTerm(topic: LooseWeek, t: int)
    ensures TopicTerm(topic) == t <==> BelongsTo(topic, t)
  {
  }

  lemma {:induction false} FiledCount(topics: seq<LooseWeek>, t: int)
    ensures |Filed(topics, t)| == CountBefore(topics, |topics|, t)
  {
    if topics != [] {
      FiledCount(topics[..|topics| - 1], t);
      CountPrefix(topics, |topics| - 1, t);
      BelongsToTerm(topics[|topics| - 1], t);
    }
  }

  lemma {:induction false} CountPrefix(topics: seq<LooseWeek>, i: nat, t: int)
    requires i < |topics|
    ensures CountBefore(topics[..|topics| - 1], i, t) == CountBefore(topics, i, t)
  {
    if i > 0 { CountPrefix(topics, i - 1, t); }
  }

  /** Topic `i`, at its position within its term, is numbered `n`. */
  ghost predicate TopicClaims(topics: seq<LooseWeek>, i: nat, t: int, n: int)
    requires i < |topics|
  {
    BelongsTo(topics[i], t) && NumberedFor(topics[i], CountBefore(topics, i, t) + 1, n)
  }

  lemma {:induction false} NoTopicClaims(topics: seq<LooseWeek>, t: int, n: int)
    requires forall k :: 0 <= k < |topics| ==> !TopicClaims(topics, k, t, n)
    ensures FirstWeek(Filed(topics, t), n) == None
  {
    if topics != [] {
      hide AsParsedWeek, NumberedFor;
      var m := |topics| - 1;
      forall k | 0 <= k < m ensures !TopicClaims(topics[..m], k, t, n) {
        assert !TopicClaims(topics, k, t, n);
        CountPrefix(topics, k, t);
      }
      NoTopicClaims(topics[..m], t, n);
      LastFiled(topics, t, n);
      assert !TopicClaims(topics, m, t, n);
    }
  }

  /** The last topic adds at most itself to what is filed. */
  lemma LastFiled(topics: seq<LooseWeek>, t: int, n: int)
    requires topics != []
    ensures var m := |topics| - 1;
            FirstWeek(Filed(topics, t), n) ==
              OrElse(FirstWeek(Filed(topics[..m], t), n),
                     if TopicClaims(topics, m, t, n) then Some(AsParsedWeek(topics[m], CountBefore(topics, m, t) + 1)) else None)
  {
    hide AsParsedWeek, NumberedFor;
    var m := |topics| - 1;
    var filed := Filed(topics[..m], t);
    BelongsToTerm(topics[m], t);
    FiledCount(topics[..m], t);
    CountPrefix(topics, m, t);
    if BelongsTo(topics[m], t) {
      var w := AsParsedWeek(topics[m], |filed| + 1);
      WeekReads(topics[m], |filed| + 1);
      FirstWeekConcat(filed, [w], n);
      OneWeek(w, n);
      WeekNumberRead(topics[m], |filed| + 1, n);
    }
  }

  lemma WeekNumberRead(raw: LooseWeek, position: int, n: int)
    ensures AsParsedWeek(raw, position).weekNumber == n <==> NumberedFor(raw, position, n)
  {
    WeekReads(raw, position);
  }

  lemma OneWeek(w: ParsedWeek, n: int)
    ensures FirstWeek([w], n) == if w.weekNumber == n then Some(w) else None
  {
    assert [w][..0] == [];
  }

  lemma {:induction false} FirstTopicFiled(topics: seq<LooseWeek>, i: nat, t: int, n: int)
    requires i < |topics| && TopicClaims(topics, i, t, n) && forall k :: 0 <= k < i ==> !TopicClaims(topics, k, t, n)
    ensures FirstWeek(Filed(topics, t), n) == Some(AsParsedWeek(topics[i], CountBefore(topics, i, t) + 1))
  {
    hide AsParsedWeek, NumberedFor, Filed, FirstWeek;
    var m := |topics| - 1;
    LastFiled(topics, t, n);
    if i < m {
      CountPrefix(topics, i, t);
      forall k | 0 <= k <= i ensures TopicClaims(topics[..m], k, t, n) <==> TopicClaims(topics, k, t, n) { CountPrefix(topics, k, t); }
      FirstTopicFiled(topics[..m], i, t, n);
    } else {
      forall k | 0 <= k < m ensures !TopicClaims(topics[..m], k, t, n) {
        assert !TopicClaims(topics, k, t, n);
        CountPrefix(topics, k, t);
      }
      NoTopicClaims(topics[..m], t, n);
    }
  }

  /** The first topic that claims a week of its term is the one listed there, field by field. */
  lemma GroupedTopicReads(topics: seq<LooseWeek>, r: seq<ParsedTerm>, i: nat, t: int, n: int)
    requires IsGrouping(topics, r) && i < |topics|
    requires TopicClaims(topics, i, t, n) && forall k :: 0 <= k < i ==> !TopicClaims(topics, k, t, n)
    ensures ShowsWeek(r, t, n, topics[i], CountBefore(topics, i, t) + 1)
  {
    hide AsParsedWeek, Slot, FirstWeek, Canonical, NumberedFor, Filed;
    FirstTopicFiled(topics, i, t, n);
    SlotIsListed(r, t, n, topics[i], CountBefore(topics, i, t) + 1);
  }

  lemma {:induction false} AllInOneTerm(topics: seq<LooseWeek>, t: int, u: int)
    requires forall i :: 0 <= i < |topics| ==> BelongsTo(topics[i], t)
    ensures Filed(topics, t) == WeeksOf(topics)
    ensures u != t ==> Filed(topics, u) == []
  {
    if topics != [] {
      var m := |topics| - 1;
      AllInOneTerm(topics[..m], t, u);
      BelongsToTerm(topics[m], t);
      assert WeeksOf(topics) == WeeksOf(topics[..m]) + [AsParsedWeek(topics[m], m + 1)];
    }
  }

  /** Grouping topics of one term that carry no number loses none of them; a missing or odd term counts as term 1. */
  lemma UnnumberedTopicsGrouped(topics: seq<LooseWeek>, t: int, r: seq<ParsedTerm>)
    requires topics != [] && Unnumbered(topics) && IsGrouping(topics, r)
    requires forall i :: 0 <= i < |topics| ==> BelongsTo(topics[i], t)
    ensures OneTermOf(r, t, topics)
  {
    hide WeeksOf, Canonical, FirstWeek, ReadsAs, Filed, BelongsTo;
    var weeks := WeeksOf(topics);
    var p := [ParsedTerm(t, weeks)];
    UnnumberedCanonical(t, topics);
    WeeksCount(topics);
    forall u ensures Present(RawTerms(p), u) <==> Filed(topics, u) != [] {
      OneTermSlots(t, weeks, u, 0);
      AllInOneTerm(topics, t, u);
    }
    forall u, n ensures Slot(RawTerms(p), u, n) == FirstWeek(Filed(topics, u), n) {
      OneTermSlots(t, weeks, u, n);
      AllInOneTerm(topics, t, u);
      NoFirstWeek(n);
    }
    GroupingUnique(topics, r, p);
  }

  lemma WeeksCount(topics: seq<LooseWeek>)
    ensures |WeeksOf(topics)| == |topics|
  {
  }

  // ---------------------------------------------------------------- the answer to one chunk

  /** Of several results the first one for the grade contributes, or the very first when none is for it. */
  lemma FirstOfGradeContributes(results: seq<GradeResult>, grade: string, i: nat, list: seq<RawTerm>)
    requires i < |results| && Contribution(results, grade, list)
    requires (results[i].gradeLevel == grade && forall k :: 0 <= k < i ==> results[k].gradeLevel != grade)
          || (i == 0 && forall k :: 0 <= k < |results| ==> results[k].gradeLevel != grade)
    ensures exists r :: IsNormalized(results[i].data, r) && list == RawTerms(r)
  {
    hide IsNormalized;
    FindGradeIs(results, grade, i);
  }

  lemma {:induction false} FindGradeIs(results: seq<GradeResult>, grade: string, i: nat)
    requires i < |results|
    ensures results[i].gradeLevel == grade && (forall k :: 0 <= k < i ==> results[k].gradeLevel != grade) ==>
              FindGrade(results, grade) == Some(results[i])
    ensures (forall k :: 0 <= k < |results| ==> results[k].gradeLevel != grade) ==> FindGrade(results, grade) == None
  {
    if i > 0 {
      FindGradeIs(results[1..], grade, i - 1);
    } else if |results| > 1 {
      FindGradeIs(results[1..], grade, 0);
    }
  }
}
