/**
 Reading a stored parse back: the structured `terms` path, the legacy flat `topics` path,
 and the chunk loop that produces what is stored
 (src/agora-curriculum/full-year-curriculum.util.ts, src/ai/ai-curriculum-pipeline.service.ts).
 */
module ParsedSource {
  import opened Prelude
  import opened ParsedTerms
  import opened MergeLaws

  /** An out-of-range or missing term number counts as term 1. */
  function TopicTerm(topic: LooseWeek): (t: int)
    ensures 1 <= t <= FULL_YEAR_TERMS
  {
    if topic.term.Some? && 1 <= topic.term.value <= FULL_YEAR_TERMS then topic.term.value else 1
  }

  /** The topics filed under a term, in order; an unnumbered one takes the next position of its term. */
  ghost function Filed(topics: seq<LooseWeek>, t: int): seq<ParsedWeek> {
    if topics == [] then []
    else
      var before, last := Filed(topics[..|topics| - 1], t), topics[|topics| - 1];
      if TopicTerm(last) == t then before + [AsParsedWeek(last, |before| + 1)] else before
  }

  /** `r` is the canonical list of the flat topics. */
  ghost predicate IsGrouping(topics: seq<LooseWeek>, r: seq<ParsedTerm>) {
    && Canonical(r)
    && (forall t :: Present(RawTerms(r), t) <==> Filed(topics, t) != [])
    && (forall t, n :: Slot(RawTerms(r), t, n) == FirstWeek(Filed(topics, t), n))
  }

  ghost predicate BucketsAreFiled(byTerm: map<int, seq<ParsedWeek>>, topics: seq<LooseWeek>) {
    && (forall t :: t in byTerm ==> byTerm[t] == Filed(topics, t) && byTerm[t] != [])
    && (forall t :: t !in byTerm ==> Filed(topics, t) == [])
  }

  lemma FileOne(byTerm: map<int, seq<ParsedWeek>>, topics: seq<LooseWeek>, topic: LooseWeek)
    requires BucketsAreFiled(byTerm, topics)
    ensures var t, list := TopicTerm(topic), Bucket(byTerm, TopicTerm(topic));
            BucketsAreFiled(byTerm[t := list + [AsParsedWeek(topic, |list| + 1)]], topics + [topic])
  {
    hide AsParsedWeek, Filed;
    forall t { FiledNext(topics, topic, t); }
  }

  lemma FiledIsValid(topic: LooseWeek, position: int)
    requires position > 0
    ensures ValidWeek(AsParsedWeek(topic, position))
  {
  }

  lemma NothingFiled()
    ensures BucketsAreFiled(map[], [])
  {
  }

  lemma GroupingOfBuckets(byTerm: map<int, seq<ParsedWeek>>, topics: seq<LooseWeek>, r: seq<ParsedTerm>)
    requires BucketsAreFiled(byTerm, topics) && Lists(r, byTerm)
    ensures IsGrouping(topics, r)
  {
    forall t, n ensures Slot(RawTerms(r), t, n) == FirstWeek(Filed(topics, t), n) {
      assert Slot(RawTerms(r), t, n) == FirstWeek(Bucket(byTerm, t), n);
    }
    forall t ensures Present(RawTerms(r), t) <==> Filed(topics, t) != [] { }
  }

  method GroupParsedTopicsIntoTerms(topics: seq<LooseWeek>) returns (r: seq<ParsedTerm>)
    ensures IsGrouping(topics, r)
  {
    hide AsParsedWeek, ValidWeek, BucketsAreFiled, Lists, IsGrouping, TopicTerm;
    var byTerm: map<int, seq<ParsedWeek>> := map[];
    var order: seq<int> := [];
    NothingFiled();
    for i := 0 to |topics|
      invariant forall k :: k in order <==> k in byTerm
      invariant ValidBuckets(byTerm)
      invariant BucketsAreFiled(byTerm, topics[..i])
    {
      var term := TopicTerm(topics[i]);
      var list := if term in byTerm then byTerm[term] else [];
      FileOne(byTerm, topics[..i], topics[i]);
      FiledIsValid(topics[i], |list| + 1);
      assert topics[..i + 1] == topics[..i] + [topics[i]];
      if term !in byTerm { order := order + [term]; }
      byTerm := byTerm[term := list + [AsParsedWeek(topics[i], |list| + 1)]];
    }
    assert topics[..|topics|] == topics;
    r := ListByTerm(byTerm, order);
    GroupingOfBuckets(byTerm, topics, r);
  }

  /** Stored parse data; JSON that is not an object carries neither list. */
  datatype SourceData = SourceData(terms: Option<seq<RawTerm>>, topics: Option<seq<LooseWeek>>)

  predicate HasTerms(data: SourceData) { data.terms.Some? && data.terms.value != [] }

  predicate HasTopics(data: SourceData) { data.topics.Some? && data.topics.value != [] }

  ghost predicate IsNormalized(data: SourceData, r: seq<ParsedTerm>) {
    if HasTerms(data) then IsMerge([], data.terms.value, r)
    else if HasTopics(data) then IsGrouping(data.topics.value, r)
    else r == []
  }

  method NormalizeSourceParsedData(data: SourceData) returns (r: seq<ParsedTerm>)
    ensures IsNormalized(data, r) && Canonical(r)
  {
    if HasTerms(data) {
      r := MergeParsedTerms([], data.terms.value);
    } else if HasTopics(data) {
      r := GroupParsedTopicsIntoTerms(data.topics.value);
    } else {
      r := [];
    }
  }

  function FlattenParsedTerms(ts: seq<ParsedTerm>): seq<LooseWeek> {
    if ts == [] then []
    else FlattenParsedTerms(ts[..|ts| - 1]) + LooseAll(ts[|ts| - 1].weeks, Some(ts[|ts| - 1].term))
  }

  /** Each flattened topic carries a term's number and every field of one of its weeks. */
  lemma {:induction false} FlattenedTopics(ts: seq<ParsedTerm>, topic: LooseWeek)
    ensures topic in FlattenParsedTerms(ts) <==>
              exists i, j :: 0 <= i < |ts| && 0 <= j < |ts[i].weeks| && FlatOf(ts[i].term, ts[i].weeks[j], topic)
  {
    hide FlatOf;
    if ts != [] {
      var n := |ts| - 1;
      FlattenedTopics(ts[..n], topic);
      FlatTerm(ts[n], topic);
    }
  }

  predicate FlatOf(term: int, w: ParsedWeek, topic: LooseWeek) {
    && topic.term == Some(term) && topic.weekNumber == Some(w.weekNumber)
    && topic.title == Some(w.title) && topic.topic == None && topic.description == w.description
    && topic.subTopics == Some(w.subTopics) && topic.learningOutcomes == Some(w.learningOutcomes) && topic.objectives == None
    && topic.studentFriendlyOutcomes == Some(w.studentFriendlyOutcomes)
    && topic.suggestedActivities == Some(w.suggestedActivities) && topic.resources == Some(w.resources)
    && topic.assessmentType == Some(w.assessmentType)
  }

  lemma FlatTerm(t: ParsedTerm, topic: LooseWeek)
    ensures topic in LooseAll(t.weeks, Some(t.term)) <==> exists j :: 0 <= j < |t.weeks| && FlatOf(t.term, t.weeks[j], topic)
  {
    var flat := LooseAll(t.weeks, Some(t.term));
    forall j | 0 <= j < |t.weeks| ensures FlatOf(t.term, t.weeks[j], topic) <==> topic == flat[j] { }
  }

  function StructuredParsedData(ts: seq<ParsedTerm>): SourceData {
    SourceData(Some(RawTerms(ts)), Some(FlattenParsedTerms(ts)))
  }

  // ---------------------------------------------------------------- round trips

  lemma NormalizedUnique(data: SourceData, r: seq<ParsedTerm>, s: seq<ParsedTerm>)
    requires IsNormalized(data, r) && IsNormalized(data, s)
    ensures r == s
  {
    if HasTerms(data) || HasTopics(data) { CanonicalUnique(r, s); }
  }

  /** What is stored is read back unchanged exactly when it was canonical. */
  lemma StoreReadRoundTrip(ts: seq<ParsedTerm>, r: seq<ParsedTerm>)
    requires IsNormalized(StructuredParsedData(ts), r)
    ensures r == ts <==> Canonical(ts)
  {
    hide IsMerge, Canonical;
    if ts == [] {
      assert FlattenParsedTerms(ts) == [];
      NothingIsCanonical();
    } else {
      NormalizeFixedIffCanonical(ts, r);
    }
  }

  lemma NothingIsCanonical()
    ensures Canonical([])
  {
  }

  lemma {:induction false} FiledConcatOther(topics: seq<LooseWeek>, more: seq<LooseWeek>, t: int)
    requires forall i :: 0 <= i < |more| ==> TopicTerm(more[i]) != t
    ensures Filed(topics + more, t) == Filed(topics, t)
  {
    if more == [] {
      assert topics + more == topics;
    } else {
      FiledConcatOther(topics, more[..|more| - 1], t);
      assert (topics + more)[..|topics + more| - 1] == topics + more[..|more| - 1];
    }
  }

  lemma FiledNext(topics: seq<LooseWeek>, topic: LooseWeek, t: int)
    ensures Filed(topics + [topic], t) ==
              if TopicTerm(topic) == t then Filed(topics, t) + [AsParsedWeek(topic, |Filed(topics, t)| + 1)] else Filed(topics, t)
  {
    assert (topics + [topic])[..|topics|] == topics;
  }

  lemma ReadOneBack(w: ParsedWeek, term: Option<int>, position: int)
    requires ValidWeek(w)
    ensures AsParsedWeek(Loose(w, term), position) == w
  {
  }

  /** One more week, read back loosely under term `t`. */
  lemma LooseNext(ws: seq<ParsedWeek>, t: int)
    requires ws != [] && 1 <= t <= FULL_YEAR_TERMS
    ensures var last := Loose(ws[|ws| - 1], Some(t));
            LooseAll(ws, Some(t)) == LooseAll(ws[..|ws| - 1], Some(t)) + [last] && TopicTerm(last) == t
  {
  }

  lemma {:induction false} FiledConcatSame(topics: seq<LooseWeek>, ws: seq<ParsedWeek>, t: int)
    requires 1 <= t <= FULL_YEAR_TERMS
    requires forall i :: 0 <= i < |ws| ==> ValidWeek(ws[i])
    ensures Filed(topics + LooseAll(ws, Some(t)), t) == Filed(topics, t) + ws
  {
    hide *;
    var more := LooseAll(ws, Some(t));
    if ws == [] {
      NothingLoose(Some(t));
      assert topics + more == topics;
    } else {
      var init, last := ws[..|ws| - 1], ws[|ws| - 1];
      FiledConcatSame(topics, init, t);
      LooseNext(ws, t);
      var before := topics + LooseAll(init, Some(t));
      assert topics + more == before + [Loose(last, Some(t))];
      FiledNext(before, Loose(last, Some(t)), t);
      ReadOneBack(last, Some(t), |Filed(before, t)| + 1);
      assert ws == init + [last];
    }
  }

  lemma NothingLoose(term: Option<int>)
    ensures LooseAll([], term) == []
  {
  }

  ghost predicate InYear(ts: seq<ParsedTerm>) {
    forall i :: 0 <= i < |ts| ==> 1 <= ts[i].term <= FULL_YEAR_TERMS && ts[i].weeks != []
  }

  /** The topics of the other terms leave term `t` alone. */
  lemma FiledOther(topics: seq<LooseWeek>, last: ParsedTerm, t: int)
    requires last.term != t && 1 <= last.term <= FULL_YEAR_TERMS
    ensures Filed(topics + LooseAll(last.weeks, Some(last.term)), t) == Filed(topics, t)
  {
    hide Filed;
    FiledConcatOther(topics, LooseAll(last.weeks, Some(last.term)), t);
  }

  lemma {:induction false} FiledAbsent(ts: seq<ParsedTerm>, t: int)
    requires InYear(ts) && forall i :: 0 <= i < |ts| ==> ts[i].term != t
    ensures Filed(FlattenParsedTerms(ts), t) == []
  {
    if ts != [] {
      hide Filed, LooseAll;
      FiledAbsent(ts[..|ts| - 1], t);
      FiledOther(FlattenParsedTerms(ts[..|ts| - 1]), ts[|ts| - 1], t);
    }
  }

  /** Flattened and filed again, the topics of a term are its weeks. */
  lemma {:induction false} FiledFlattened(ts: seq<ParsedTerm>, i: nat)
    requires Canonical(ts) && InYear(ts) && i < |ts|
    ensures Filed(FlattenParsedTerms(ts), ts[i].term) == ts[i].weeks
  {
    hide Filed, LooseAll, ValidWeek, InWeekOrder;
    var init, last := ts[..|ts| - 1], ts[|ts| - 1];
    if i == |init| {
      FiledAbsent(init, last.term);
      FiledConcatSame(FlattenParsedTerms(init), last.weeks, last.term);
    } else {
      FiledFlattened(init, i);
      FiledOther(FlattenParsedTerms(init), last, ts[i].term);
    }
  }

  lemma {:induction false} FiledRange(topics: seq<LooseWeek>, t: int)
    ensures Filed(topics, t) != [] ==> 1 <= t <= FULL_YEAR_TERMS
  {
    if topics != [] { FiledRange(topics[..|topics| - 1], t); }
  }

  lemma NoFirstWeek(n: int)
    ensures FirstWeek([], n) == None
  {
  }

  /** A list is a grouping of its own topics exactly when it is canonical, within the year and without empty terms. */
  lemma GroupingOfFlattened(ts: seq<ParsedTerm>)
    ensures IsGrouping(FlattenParsedTerms(ts), ts) <==> Canonical(ts) && InYear(ts)
  {
    var topics := FlattenParsedTerms(ts);
    if Canonical(ts) && InYear(ts) {
      hide Filed, FirstWeek, FlattenParsedTerms;
      forall t ensures Present(RawTerms(ts), t) <==> Filed(topics, t) != [] {
        PresentTerm(ts, t);
        if i :| 0 <= i < |ts| && ts[i].term == t { FiledFlattened(ts, i); } else { FiledAbsent(ts, t); }
      }
      forall t, n ensures Slot(RawTerms(ts), t, n) == FirstWeek(Filed(topics, t), n) {
        PresentTerm(ts, t);
        if i :| 0 <= i < |ts| && ts[i].term == t {
          FiledFlattened(ts, i);
          SlotAt(ts, i, n);
        } else {
          FiledAbsent(ts, t);
          SlotAbsent(RawTerms(ts), t, n);
          NoFirstWeek(n);
        }
      }
    }
    if IsGrouping(topics, ts) {
      forall i | 0 <= i < |ts| ensures 1 <= ts[i].term <= FULL_YEAR_TERMS && ts[i].weeks != [] {
        var t := ts[i].term;
        PresentTerm(ts, t);
        FiledRange(topics, t);
        var filed := Filed(topics, t);
        FirstWeekFound(filed, filed[0].weekNumber);
        SlotAt(ts, i, filed[0].weekNumber);
      }
    }
  }

  lemma GroupingUnique(topics: seq<LooseWeek>, r: seq<ParsedTerm>, s: seq<ParsedTerm>)
    requires IsGrouping(topics, r) && IsGrouping(topics, s)
    ensures r == s
  {
    hide Filed, FirstWeek, Slot, RawTerms, Canonical;
    CanonicalUnique(r, s);
  }

  /**
   The legacy flat topics also restore the terms, exactly when the list is canonical, every term is
   one of the three and no term is empty: an empty term leaves no topic behind, and a term outside
   1..3 comes back as term 1.
   */
  lemma FlattenGroupRoundTrip(ts: seq<ParsedTerm>, r: seq<ParsedTerm>)
    requires IsGrouping(FlattenParsedTerms(ts), r)
    ensures r == ts <==> Canonical(ts) && InYear(ts)
  {
    hide IsGrouping, FlattenParsedTerms, Canonical, InYear;
    GroupingOfFlattened(ts);
    if Canonical(ts) && InYear(ts) { GroupingUnique(FlattenParsedTerms(ts), r, ts); }
  }

  // ---------------------------------------------------------------- the chunk loop

  datatype GradeResult = GradeResult(gradeLevel: string, data: SourceData)

  /** The result for the target grade, or the first one when none is labelled with it. */
  function PrimaryResult(results: seq<GradeResult>, grade: string): GradeResult
    requires results != []
  {
    FindGrade(results, grade).GetOr(results[0])
  }

  function FindGrade(results: seq<GradeResult>, grade: string): Option<GradeResult> {
    if results == [] then None
    else if results[0].gradeLevel == grade then Some(results[0])
    else FindGrade(results[1..], grade)
  }

  /** `lists[i]` is what the answer to chunk `i` contributes: nothing when it has no results. */
  ghost predicate Contributions(answers: seq<seq<GradeResult>>, grade: string, lists: seq<seq<RawTerm>>) {
    && |lists| == |answers|
    && forall i :: 0 <= i < |answers| ==> Contribution(answers[i], grade, lists[i])
  }

  ghost predicate Contribution(results: seq<GradeResult>, grade: string, list: seq<RawTerm>) {
    if results == [] then list == []
    else exists r :: IsNormalized(PrimaryResult(results, grade).data, r) && list == RawTerms(r)
  }

  datatype ParseOutcome = Parsed(data: SourceData) | EmptyAcrossAllChunks

  /**
   The answers to all chunks, merged. The parse fails exactly when no chunk supplied any slot;
   otherwise the stored terms hold, for each slot, the week of the first chunk that supplied it.
   */
  method ParseCurriculumDocument(answers: seq<seq<GradeResult>>, grade: string)
    returns (outcome: ParseOutcome, merged: seq<ParsedTerm>, ghost lists: seq<seq<RawTerm>>)
    ensures Contributions(answers, grade, lists) && IsMergeOfAll(lists, merged)
    ensures outcome == EmptyAcrossAllChunks <==> forall t, n :: FirstSupplied(lists, t, n) == None
    ensures outcome.Parsed? ==> outcome.data == StructuredParsedData(merged)
  {
    hide IsMergeOfAll, IsMerge, IsNormalized, FlattenParsedTerms, RawTerms, FirstSupplied;
    merged := [];
    lists := [];
    NothingMerged();
    for i := 0 to |answers|
      invariant Contributions(answers[..i], grade, lists)
      invariant IsMergeOfAll(lists, merged)
    {
      ghost var next: seq<RawTerm> := [];
      ghost var before := merged;
      if answers[i] != [] {
        var incoming := NormalizeSourceParsedData(PrimaryResult(answers[i], grade).data);
        next := RawTerms(incoming);
        merged := MergeParsedTerms(RawTerms(merged), RawTerms(incoming));
      } else {
        MergedWithNothing(lists, merged);
      }
      assert Contribution(answers[i], grade, next);
      MergeAllStep(lists, next, before, merged);
      lists := lists + [next];
    }
    assert answers[..|answers|] == answers;
    var structured := StructuredParsedData(merged);
    EmptyIffNothingSupplied(lists, merged);
    outcome := if structured.topics.value == [] then EmptyAcrossAllChunks else Parsed(structured);
  }

  lemma NothingMerged()
    ensures IsMergeOfAll([], [])
  {
  }

  lemma MergedWithNothing(lists: seq<seq<RawTerm>>, merged: seq<ParsedTerm>)
    requires IsMergeOfAll(lists, merged)
    ensures IsMerge(RawTerms(merged), [], merged)
  {
  }

  lemma {:induction false} FlattenEmpty(ts: seq<ParsedTerm>)
    ensures FlattenParsedTerms(ts) == [] <==> forall i :: 0 <= i < |ts| ==> ts[i].weeks == []
  {
    if ts != [] {
      FlattenEmpty(ts[..|ts| - 1]);
      assert |FlattenParsedTerms(ts)| == |FlattenParsedTerms(ts[..|ts| - 1])| + |ts[|ts| - 1].weeks|;
    }
  }

  lemma EmptyIffNoSlot(ts: seq<ParsedTerm>)
    requires Canonical(ts)
    ensures FlattenParsedTerms(ts) == [] <==> forall t, n :: Slot(RawTerms(ts), t, n) == None
  {
    FlattenEmpty(ts);
    forall t, n | FlattenParsedTerms(ts) == [] ensures Slot(RawTerms(ts), t, n) == None {
      PresentTerm(ts, t);
      if i :| 0 <= i < |ts| && ts[i].term == t { SlotAt(ts, i, n); } else { SlotAbsent(RawTerms(ts), t, n); }
    }
    if i :| 0 <= i < |ts| && ts[i].weeks != [] {
      SlotAt(ts, i, ts[i].weeks[0].weekNumber);
      FirstWeekAt(ts[i].weeks, 0);
    }
  }

  lemma EmptyIffNothingSupplied(lists: seq<seq<RawTerm>>, merged: seq<ParsedTerm>)
    requires IsMergeOfAll(lists, merged)
    ensures FlattenParsedTerms(merged) == [] <==> forall t, n :: FirstSupplied(lists, t, n) == None
  {
    EmptyIffNoSlot(merged);
    if FlattenParsedTerms(merged) == [] {
      forall t, n ensures FirstSupplied(lists, t, n) == None { assert Slot(RawTerms(merged), t, n) == None; }
    } else {
      var t, n :| Slot(RawTerms(merged), t, n) != None;
      assert FirstSupplied(lists, t, n) != None;
    }
  }
}
