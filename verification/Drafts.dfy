/**
 The versions of one subject and grade: one in-flight draft, new versions minted in sequence
 (src/agora-curriculum/agora-curriculum.service.ts, src/agora-curriculum/agora-curriculum-draft.util.ts).
 */
module Drafts {
  import opened Prelude
  import opened ParsedTerms
  import opened YearShape
  import opened YearRepair
  import opened PublishGate
  import opened MappedYear
  import opened Consolidation

  datatype PublishStatus = DRAFT | PUBLISHED

  datatype Curriculum = Curriculum(version: int, status: PublishStatus, topics: Table)

  function TopicCount(c: Curriculum): nat { |LiveSlots(c.topics.rows)| }

  /** `shouldReuseInFlightDraft`, for the latest version if there is one. */
  predicate ShouldReuseInFlightDraft(latest: Option<Curriculum>, forceNewVersion: bool) {
    if latest.None? || latest.value.status != DRAFT then false
    else if forceNewVersion then TopicCount(latest.value) == 0
    else TopicCount(latest.value) < FULL_YEAR_WEEKS
  }

  function NextCurriculumVersion(latest: Option<Curriculum>): int {
    if latest.Some? then latest.value.version + 1 else 1
  }

  predicate Complete(c: Curriculum) { IsCompleteFullYearSlots(LiveSlots(c.topics.rows)) }

  // ---------------------------------------------------------------- the transitions

  datatype Event =
    | Enqueue(forceNewVersion: bool)
    | Consolidated(target: nat, terms: seq<YearTerm>)
    | ConsolidationFailed(target: nat)
    | SetStatus(target: nat, status: PublishStatus)

  /** `orderBy: { version: 'desc' }`, first. */
  ghost predicate IsLatest(rows: seq<Curriculum>, latest: Option<Curriculum>) {
    if rows == [] then latest == None
    else latest.Some? && latest.value in rows && forall i :: 0 <= i < |rows| ==> rows[i].version <= latest.value.version
  }

  ghost predicate EnqueueStep(before: seq<Curriculum>, forceNewVersion: bool, after: seq<Curriculum>) {
    exists latest :: IsLatest(before, latest) &&
      after == if ShouldReuseInFlightDraft(latest, forceNewVersion) then before
               else before + [Curriculum(NextCurriculumVersion(latest), DRAFT, Table([], 0))]
  }

  /** The transaction of a successful consolidation rewrites the topics of its target and nothing else. */
  ghost predicate ConsolidatedStep(before: seq<Curriculum>, target: nat, terms: seq<YearTerm>, after: seq<Curriculum>) {
    && target < |before| == |after|
    && InOrderYear(Repaired(terms))
    && Reconciled(before[target].topics, after[target].topics, Repaired(terms))
    && after == before[target := before[target].(topics := after[target].topics)]
  }

  /** Publishing is refused until the year is complete; reverting to a draft never is. */
  function SetStatusOf(c: Curriculum, status: PublishStatus): Curriculum {
    if status == PUBLISHED && !Complete(c) then c else c.(status := status)
  }

  ghost predicate Step(before: seq<Curriculum>, ev: Event, after: seq<Curriculum>) {
    match ev
    case Enqueue(force) => EnqueueStep(before, force, after)
    case Consolidated(target, terms) => ConsolidatedStep(before, target, terms, after)
    case ConsolidationFailed(target) => target < |before| && after == before
    case SetStatus(target, status) => target < |before| && after == before[target := SetStatusOf(before[target], status)]
  }

  ghost predicate IsRun(states: seq<seq<Curriculum>>, events: seq<Event>) {
    && |states| == |events| + 1
    && states[0] == []
    && forall i :: 0 <= i < |events| ==> Step(states[i], events[i], states[i + 1])
  }

  // ---------------------------------------------------------------- what every run keeps

  ghost predicate AllOrNothing(c: Curriculum) {
    ValidTable(c.topics) && (Complete(c) || c.topics.rows == [])
  }

  ghost predicate Inv(rows: seq<Curriculum>) {
    && (forall i :: 0 <= i < |rows| ==> rows[i].version == i + 1)
    && (forall i :: 0 <= i < |rows| ==> AllOrNothing(rows[i]))
    && (forall i :: 0 <= i < |rows| ==> rows[i].status == PUBLISHED ==> Complete(rows[i]))
    && (forall i :: 0 <= i < |rows| - 1 ==> Complete(rows[i]))
  }

  lemma CompleteCount(c: Curriculum)
    requires AllOrNothing(c)
    ensures TopicCount(c) == if Complete(c) then FULL_YEAR_WEEKS else 0
  {
  }

  lemma LatestIsLast(rows: seq<Curriculum>, latest: Option<Curriculum>)
    requires Inv(rows) && IsLatest(rows, latest)
    ensures rows != [] ==> latest == Some(rows[|rows| - 1])
  {
    hide Complete, AllOrNothing;
    if rows != [] {
      var i :| 0 <= i < |rows| && rows[i] == latest.value;
      assert rows[|rows| - 1].version <= rows[i].version;
    }
  }

  lemma EnqueueKeepsInv(before: seq<Curriculum>, force: bool, after: seq<Curriculum>)
    requires Inv(before) && EnqueueStep(before, force, after)
    ensures Inv(after)
  {
    hide Complete, LiveSlots;
    var latest :| IsLatest(before, latest) &&
      after == if ShouldReuseInFlightDraft(latest, force) then before
               else before + [Curriculum(NextCurriculumVersion(latest), DRAFT, Table([], 0))];
    LatestIsLast(before, latest);
    if before != [] { CompleteCount(before[|before| - 1]); }
  }

  lemma ConsolidatedKeepsInv(before: seq<Curriculum>, target: nat, terms: seq<YearTerm>, after: seq<Curriculum>)
    requires Inv(before) && ConsolidatedStep(before, target, terms, after)
    ensures Inv(after)
  {
    hide Reconciled, Repaired, IsCompleteFullYearSlots, LiveSlots, InOrderYear;
    assert AllOrNothing(before[target]);
    ReconciledValid(before[target].topics, after[target].topics, Repaired(terms));
    PublishableAfterConsolidation(before[target].topics, after[target].topics, Repaired(terms));
    assert Complete(after[target]);
  }

  lemma StepKeepsInv(before: seq<Curriculum>, ev: Event, after: seq<Curriculum>)
    requires Inv(before) && Step(before, ev, after)
    ensures Inv(after)
  {
    hide Reconciled, Repaired, IsCompleteFullYearSlots;
    match ev
    case Enqueue(force) => EnqueueKeepsInv(before, force, after);
    case Consolidated(target, terms) => ConsolidatedKeepsInv(before, target, terms, after);
    case ConsolidationFailed(_) =>
    case SetStatus(_, _) => hide Complete;
  }

  lemma {:induction false} RunKeepsInv(states: seq<seq<Curriculum>>, events: seq<Event>, n: nat)
    requires IsRun(states, events) && n < |states|
    ensures Inv(states[n])
  {
    if n > 0 {
      RunKeepsInv(states, events, n - 1);
      StepKeepsInv(states[n - 1], events[n - 1], states[n]);
    }
  }

  /**
   In every state of every run: the versions are exactly 1..n, every version below n is a complete year of 39
   live topics, and only version n can be incomplete, as a draft without any topic.
   */
  lemma VersionsInEveryRun(states: seq<seq<Curriculum>>, events: seq<Event>, n: nat, i: nat)
    requires IsRun(states, events) && n < |states| && i < |states[n]|
    ensures states[n][i].version == i + 1
    ensures i < |states[n]| - 1 ==> Complete(states[n][i]) && TopicCount(states[n][i]) == FULL_YEAR_WEEKS
    ensures !Complete(states[n][i]) ==> i == |states[n]| - 1 && states[n][i].status == DRAFT && TopicCount(states[n][i]) == 0
  {
    RunKeepsInv(states, events, n);
    CompleteCount(states[n][i]);
  }

  /** In every run a new version is minted only over a complete year: a request on an incomplete draft reuses it. */
  lemma MintedOnlyOverACompleteYear(states: seq<seq<Curriculum>>, events: seq<Event>, n: nat)
    requires IsRun(states, events) && n < |events| && events[n].Enqueue?
    requires states[n] != []
    ensures |states[n + 1]| == if Complete(states[n][|states[n]| - 1]) then |states[n]| + 1 else |states[n]|
  {
    var before, after := states[n], states[n + 1];
    RunKeepsInv(states, events, n);
    assert Step(before, events[n], after);
    var latest :| IsLatest(before, latest) &&
      after == if ShouldReuseInFlightDraft(latest, events[n].forceNewVersion) then before
               else before + [Curriculum(NextCurriculumVersion(latest), DRAFT, Table([], 0))];
    LatestIsLast(before, latest);
    CompleteCount(before[|before| - 1]);
  }

  // ---------------------------------------------------------------- what publishing and consolidating achieve

  /** Event `m` sets the status of version `i + 1`: publishing takes a complete year, reverting is always accepted. */
  ghost predicate SetsStatus(states: seq<seq<Curriculum>>, events: seq<Event>, m: nat, i: nat, status: PublishStatus) {
    && m < |events| && m < |states| && i < |states[m]|
    && events[m] == SetStatus(i, status)
    && (status == PUBLISHED ==> OncePerSlot(LiveSlots(states[m][i].topics.rows)))
  }

  /** Of the first `n` events the last one that set the status set it to `status`. */
  ghost predicate LastSet(states: seq<seq<Curriculum>>, events: seq<Event>, n: nat, i: nat, status: PublishStatus) {
    exists m :: 0 <= m < n && SetsStatus(states, events, m, i, status)
      && forall l, other :: m < l < n ==> !SetsStatus(states, events, l, i, other)
  }

  lemma StepGrows(before: seq<Curriculum>, ev: Event, after: seq<Curriculum>)
    requires Step(before, ev, after)
    ensures |before| <= |after|
    ensures forall i :: 0 <= i < |before| && !(ev.SetStatus? && ev.target == i) ==>
              after[i].status == before[i].status && after[i].version == before[i].version
    ensures forall i :: |before| <= i < |after| ==> after[i].status == DRAFT
  {
    hide Reconciled, Repaired, Complete, InOrderYear, ShouldReuseInFlightDraft;
  }

  lemma {:induction false} RunGrows(states: seq<seq<Curriculum>>, events: seq<Event>, m: nat, n: nat)
    requires IsRun(states, events) && m <= n < |states|
    ensures |states[m]| <= |states[n]|
  {
    hide Step;
    if m < n {
      RunGrows(states, events, m, n - 1);
      StepGrows(states[n - 1], events[n - 1], states[n]);
    }
  }

  lemma SetStatusSets(before: seq<Curriculum>, i: nat, status: PublishStatus, after: seq<Curriculum>)
    requires Step(before, SetStatus(i, status), after)
    ensures i < |before| == |after|
    ensures var accepted := status == DRAFT || OncePerSlot(LiveSlots(before[i].topics.rows));
            after == if accepted then before[i := before[i].(status := status)] else before
  {
    CompleteIffOncePerSlot(LiveSlots(before[i].topics.rows));
  }

  lemma LastSetNext(states: seq<seq<Curriculum>>, events: seq<Event>, n: nat, i: nat, status: PublishStatus)
    ensures var now := exists other :: SetsStatus(states, events, n, i, other);
            LastSet(states, events, n + 1, i, status) <==>
              SetsStatus(states, events, n, i, status) || (!now && LastSet(states, events, n, i, status))
  {
    hide SetsStatus;
    if LastSet(states, events, n, i, status) && forall other :: !SetsStatus(states, events, n, i, other) {
      var m :| 0 <= m < n && SetsStatus(states, events, m, i, status)
        && forall l, other :: m < l < n ==> !SetsStatus(states, events, l, i, other);
      assert forall l, other :: m < l < n + 1 ==> !SetsStatus(states, events, l, i, other);
    }
  }

  /** In every run a version is PUBLISHED exactly when the last accepted status event for it was PUBLISHED. */
  lemma {:induction false} PublishedExactlyWhenSet(states: seq<seq<Curriculum>>, events: seq<Event>, n: nat, i: nat)
    requires IsRun(states, events) && n < |states| && i < |states[n]|
    ensures states[n][i].status == PUBLISHED <==> LastSet(states, events, n, i, PUBLISHED)
  {
    hide LastSet, Step, OncePerSlot, LiveSlots;
    if n > 0 {
      var ev := events[n - 1];
      LastSetNext(states, events, n - 1, i, PUBLISHED);
      StepGrows(states[n - 1], ev, states[n]);
      if i < |states[n - 1]| {
        PublishedExactlyWhenSet(states, events, n - 1, i);
        StatusStep(states, events, n - 1, i);
      } else {
        NothingSetBefore(states, events, n, i);
      }
    }
  }

  lemma StatusStep(states: seq<seq<Curriculum>>, events: seq<Event>, m: nat, i: nat)
    requires IsRun(states, events) && m < |events| && i < |states[m]|
    ensures i < |states[m + 1]|
    ensures SetsStatus(states, events, m, i, PUBLISHED) ==> states[m + 1][i].status == PUBLISHED
    ensures SetsStatus(states, events, m, i, DRAFT) ==> states[m + 1][i].status == DRAFT
    ensures !SetsStatus(states, events, m, i, PUBLISHED) && !SetsStatus(states, events, m, i, DRAFT) ==>
              states[m + 1][i].status == states[m][i].status
  {
    hide Step, OncePerSlot, LiveSlots;
    assert Step(states[m], events[m], states[m + 1]);
    StepGrows(states[m], events[m], states[m + 1]);
    if events[m].SetStatus? && events[m].target == i { SetStatusSets(states[m], i, events[m].status, states[m + 1]); }
  }

  lemma NothingSetBefore(states: seq<seq<Curriculum>>, events: seq<Event>, n: nat, i: nat)
    requires IsRun(states, events) && 0 < n < |states| && |states[n - 1]| <= i
    ensures forall m, status :: 0 <= m < n ==> !SetsStatus(states, events, m, i, status)
    ensures !LastSet(states, events, n, i, PUBLISHED)
  {
    hide Step, OncePerSlot, LiveSlots;
    forall m, status | 0 <= m < n ensures !SetsStatus(states, events, m, i, status) { RunGrows(states, events, m, n - 1); }
  }

  /** A consolidation that succeeds makes its draft a complete year, and touches nothing else. */
  lemma ConsolidationCompletes(before: seq<Curriculum>, target: nat, terms: seq<YearTerm>, after: seq<Curriculum>)
    requires Step(before, Consolidated(target, terms), after)
    ensures target < |before| == |after|
    ensures OncePerSlot(LiveSlots(after[target].topics.rows))
    ensures after[target].version == before[target].version && after[target].status == before[target].status
    ensures forall i :: 0 <= i < |before| && i != target ==> after[i] == before[i]
  {
    hide Reconciled, Repaired, OncePerSlot, IsCompleteFullYearSlots, InOrderYear;
    PublishableAfterConsolidation(before[target].topics, after[target].topics, Repaired(terms));
  }

  /**
   Outside such runs (topics edited by hand) the promise that a new version is only minted after the latest draft is a
   complete year or is published fails, and exactly here: for a forced request on an incomplete draft that has a topic,
   and for any other request on an incomplete draft that has 39 topics or more.
   */
  lemma MintedEarlyExactlyWhen(latest: Curriculum, forceNewVersion: bool)
    ensures !ShouldReuseInFlightDraft(Some(latest), forceNewVersion) && latest.status == DRAFT && !Complete(latest)
            <==> latest.status == DRAFT && !Complete(latest)
                 && if forceNewVersion then TopicCount(latest) > 0 else TopicCount(latest) >= FULL_YEAR_WEEKS
  {
  }

  /** The forced failure in one input: a draft that holds a single topic. */
  lemma MintedEarlyExample(row: TopicRow, after: seq<Curriculum>)
    requires row.live
    requires EnqueueStep([Curriculum(1, DRAFT, Table([row], row.id + 1))], true, after)
    ensures |after| == 2 && after[0].status == DRAFT && !Complete(after[0]) && TopicCount(after[0]) == 1
  {
    var draft := Curriculum(1, DRAFT, Table([row], row.id + 1));
    assert [row][..0] == [];
    assert LiveSlots([row]) == [row.slot];
    assert TopicCount(draft) == 1;
    OnlyLatest(draft, true, after);
  }

  lemma OnlyLatest(draft: Curriculum, forceNewVersion: bool, after: seq<Curriculum>)
    requires EnqueueStep([draft], forceNewVersion, after)
    ensures after == if ShouldReuseInFlightDraft(Some(draft), forceNewVersion) then [draft]
                     else [draft, Curriculum(draft.version + 1, DRAFT, Table([], 0))]
  {
    hide ShouldReuseInFlightDraft;
    var latest :| IsLatest([draft], latest) &&
      after == if ShouldReuseInFlightDraft(latest, forceNewVersion) then [draft]
               else [draft] + [Curriculum(NextCurriculumVersion(latest), DRAFT, Table([], 0))];
    assert latest == Some(draft);
  }

  // ---------------------------------------------------------------- topics added by hand

  /** The highest week of any row, deprecated ones included; 0 without rows. */
  function LastWeekOf(rows: seq<TopicRow>): int {
    if rows == [] then 0
    else
      var before, week := LastWeekOf(rows[..|rows| - 1]), rows[|rows| - 1].slot.1;
      if |rows| > 1 && before > week then before else week
  }

  /** `addTopic`: the new topic takes the week after the highest one of all terms. */
  function WithTopicAdded(c: Curriculum, stableKey: string, term: int, content: Content): Curriculum {
    var row := TopicRow(c.topics.nextId, stableKey, (term, LastWeekOf(c.topics.rows) + 1), content, true);
    c.(topics := Table(c.topics.rows + [row], c.topics.nextId + 1))
  }

  lemma {:induction false} LastWeekIsHighest(rows: seq<TopicRow>, i: nat)
    requires i < |rows|
    ensures rows[i].slot.1 <= LastWeekOf(rows)
    ensures exists j :: 0 <= j < |rows| && rows[j].slot.1 == LastWeekOf(rows)
  {
    var n := |rows| - 1;
    if n > 0 {
      LastWeekIsHighest(rows[..n], if i < n then i else 0);
      var j :| 0 <= j < n && rows[..n][j].slot.1 == LastWeekOf(rows[..n]);
      assert rows[j].slot.1 == LastWeekOf(rows[..n]);
    }
  }

  /** The added topic is live, and its week follows the highest week `w` of the rows, or is the first. */
  lemma AddedTopicGoesLast(c: Curriculum, stableKey: string, term: int, content: Content, w: int)
    requires c.topics.rows == [] ==> w == 0
    requires c.topics.rows != [] ==> exists j :: 0 <= j < |c.topics.rows| && c.topics.rows[j].slot.1 == w
    requires forall j :: 0 <= j < |c.topics.rows| ==> c.topics.rows[j].slot.1 <= w
    ensures var added := WithTopicAdded(c, stableKey, term, content);
            && added == c.(topics := added.topics)
            && added.topics.rows == c.topics.rows + [TopicRow(c.topics.nextId, stableKey, (term, w + 1), content, true)]
            && added.topics.nextId == c.topics.nextId + 1
  {
    var rows := c.topics.rows;
    if rows != [] {
      var i :| 0 <= i < |rows| && rows[i].slot.1 == w;
      LastWeekIsHighest(rows, i);
    }
  }

  /** `deleteTopic`: the row stays, deprecated. */
  function WithTopicDeleted(c: Curriculum, i: nat): Curriculum
    requires i < |c.topics.rows|
  {
    var rows := c.topics.rows;
    c.(topics := c.topics.(rows := rows[i := rows[i].(live := false)]))
  }

  lemma {:induction false} DeletedIsOneLess(rows: seq<TopicRow>, i: nat)
    requires i < |rows| && rows[i].live
    ensures |LiveSlots(rows[i := rows[i].(live := false)])| == |LiveSlots(rows)| - 1
  {
    var deleted, n := rows[i := rows[i].(live := false)], |rows| - 1;
    if i < n {
      DeletedIsOneLess(rows[..n], i);
      assert deleted[..n] == rows[..n][i := rows[i].(live := false)];
    } else {
      assert deleted[..n] == rows[..n];
    }
  }

  lemma AddedIsOneMore(c: Curriculum, stableKey: string, term: int, content: Content)
    ensures var added := WithTopicAdded(c, stableKey, term, content);
            LiveSlots(added.topics.rows) == LiveSlots(c.topics.rows) + [(term, LastWeekOf(c.topics.rows) + 1)]
  {
    var rows, added := c.topics.rows, WithTopicAdded(c, stableKey, term, content).topics.rows;
    assert added[..|rows|] == rows;
  }

  /** A topic added to a complete year makes it 40 topics, which is not a complete year any more. */
  lemma AddedTopicBreaksTheYear(c: Curriculum, stableKey: string, term: int, content: Content)
    requires Complete(c)
    ensures !Complete(WithTopicAdded(c, stableKey, term, content))
    ensures TopicCount(WithTopicAdded(c, stableKey, term, content)) == FULL_YEAR_WEEKS + 1
  {
    AddedIsOneMore(c, stableKey, term, content);
  }

  /** Replacing any topic of a complete year by an added one keeps 39 topics, but the added one lies outside the year. */
  lemma ReplacedTopicIsStray(c: Curriculum, i: nat, stableKey: string, term: int, content: Content)
    requires Complete(c) && i < |c.topics.rows| && c.topics.rows[i].live
    ensures var replaced := WithTopicAdded(WithTopicDeleted(c, i), stableKey, term, content);
            !Complete(replaced) && TopicCount(replaced) == FULL_YEAR_WEEKS
  {
    var rows, deleted := c.topics.rows, WithTopicDeleted(c, i);
    var replaced := WithTopicAdded(deleted, stableKey, term, content);
    DeletedIsOneLess(rows, i);
    AddedIsOneMore(deleted, stableKey, term, content);
    CompleteIffOncePerSlot(LiveSlots(rows));
    LiveSlotsMember(rows, (1, WEEKS_PER_TERM));
    assert InYearGrid((1, WEEKS_PER_TERM));
    var j :| 0 <= j < |rows| && rows[j].live && rows[j].slot == (1, WEEKS_PER_TERM);
    LastWeekIsHighest(deleted.topics.rows, j);
    assert deleted.topics.rows[j].slot == rows[j].slot;
    var slots := LiveSlots(replaced.topics.rows);
    CompleteIffOncePerSlot(slots);
    assert slots[|slots| - 1] in slots && !InYearGrid(slots[|slots| - 1]);
  }

  /**
   The failure without force: on a complete draft to which a topic was added by hand, an ordinary request mints the
   next version, and the draft that is left behind is not a complete year.
   */
  lemma MintedOverAddedTopic(draft: Curriculum, stableKey: string, term: int, content: Content, after: seq<Curriculum>)
    requires draft.status == DRAFT && Complete(draft)
    requires EnqueueStep([WithTopicAdded(draft, stableKey, term, content)], false, after)
    ensures |after| == 2 && after[0] == WithTopicAdded(draft, stableKey, term, content)
    ensures after[0].status == DRAFT && !Complete(after[0])
  {
    hide Complete;
    AddedTopicBreaksTheYear(draft, stableKey, term, content);
    OnlyLatest(WithTopicAdded(draft, stableKey, term, content), false, after);
  }

  // ---------------------------------------------------------------- the service

  class DraftLine {
    var rows: seq<Curriculum>

    constructor ()
      ensures rows == []
    {
      rows := [];
    }

    method FindLatest() returns (latest: Option<Curriculum>)
      ensures IsLatest(rows, latest)
    {
      latest := None;
      for i := 0 to |rows|
        invariant i == 0 ==> latest == None
        invariant i > 0 ==> latest.Some? && latest.value in rows
        invariant latest.Some? ==> forall j :: 0 <= j < i ==> rows[j].version <= latest.value.version
      {
        if latest.None? || rows[i].version > latest.value.version { latest := Some(rows[i]); }
      }
    }

    method GetOrCreateDraftForConsolidation(forceNewVersion: bool)
      modifies this
      ensures Step(old(rows), Enqueue(forceNewVersion), rows)
      ensures rows == old(rows) || (
                && |rows| == |old(rows)| + 1 && rows[..|old(rows)|] == old(rows)
                && rows[|old(rows)|].status == DRAFT && rows[|old(rows)|].topics.rows == []
                && forall i :: 0 <= i < |old(rows)| ==> rows[i].version < rows[|old(rows)|].version)
    {
      var latest := FindLatest();
      if ShouldReuseInFlightDraft(latest, forceNewVersion) { return; }
      rows := rows + [Curriculum(NextCurriculumVersion(latest), DRAFT, Table([], 0))];
    }

    method PublishCurriculum(target: nat, status: PublishStatus) returns (ok: bool)
      requires target < |rows|
      modifies this
      ensures Step(old(rows), SetStatus(target, status), rows)
      ensures ok <==> status == DRAFT || OncePerSlot(LiveSlots(old(rows)[target].topics.rows))
      ensures ok ==> rows == old(rows)[target := old(rows)[target].(status := status)]
      ensures !ok ==> rows == old(rows)
    {
      var c := rows[target];
      CompleteIffOncePerSlot(LiveSlots(c.topics.rows));
      if status == PUBLISHED && !IsCompleteFullYearSlots(LiveSlots(c.topics.rows)) { return false; }
      rows := rows[target := c.(status := status)];
      ok := true;
    }

    /** One consolidation job: its topics are written by the transaction, or nothing changes. */
    method ConsolidateDraft(target: nat, answer: Answer, preferredKey: (SlotKey, string) -> string)
      returns (problem: Option<ConsolidationError>)
      requires target < |rows| && ValidTable(rows[target].topics)
      requires forall s, title :: preferredKey(s, title) != ""
      modifies this
      ensures problem.Some? ==> Step(old(rows), ConsolidationFailed(target), rows)
      ensures problem.None? ==> answer.terms.Some? && Step(old(rows), Consolidated(target, answer.terms.value), rows)
      ensures problem.Some? ==> rows == old(rows)
      ensures problem.None? ==> OncePerSlot(LiveSlots(rows[target].topics.rows))
    {
      hide Reconciled, Repaired;
      var store := new TopicStore();
      store.rows, store.nextId := rows[target].topics.rows, rows[target].topics.nextId;
      problem := store.Consolidate(answer, preferredKey);
      if problem.Some? { return; }
      rows := rows[target := rows[target].(topics := Table(store.rows, store.nextId))];
      ConsolidationCompletes(old(rows), target, answer.terms.value, rows);
    }
  }
}
