/**
 Writing a consolidated year over whatever topic rows a curriculum already has, in one transaction
 (src/ai/ai-curriculum-pipeline.service.ts, src/common/utils/topic-stable-key.util.ts).
 */
module Consolidation {
  import opened Prelude
  import opened Decimals
  import opened ParsedTerms
  import opened MappedYear
  import opened YearShape
  import opened YearRepair
  import opened PublishGate

  /** What consolidation writes into a topic row. */
  datatype Content = Content(
    title: string,
    description: Option<string>,
    subTopics: seq<string>,
    learningOutcomes: seq<string>,
    studentFriendlyOutcomes: seq<string>,
    suggestedActivities: seq<string>,
    resources: seq<string>,
    assessmentType: Option<string>,
    order: int)

  /** A topic row; `live` means that `deprecatedAt` is null. */
  datatype TopicRow = TopicRow(id: nat, stableKey: string, slot: SlotKey, content: Content, live: bool)

  datatype Table = Table(rows: seq<TopicRow>, nextId: nat)

  datatype Op =
    | Update(id: nat, content: Content)
    | Create(stableKey: string, slot: SlotKey, content: Content)
    | Deprecate(ids: set<nat>)

  function ContentOf(t: Topic, week: int): Content {
    Content(
      TextOr(t.title, "Untitled Topic"),
      t.description,
      t.subTopics.GetOr([]),
      t.learningOutcomes.GetOr([]),
      t.studentFriendlyOutcomes.GetOr([]),
      t.suggestedActivities.GetOr([]),
      t.resources.GetOr([]),
      t.assessmentType,
      if t.order.Some? && t.order.value != 0 then t.order.value else week)
  }

  // ---------------------------------------------------------------- stable keys

  function Candidate(preferred: string, i: nat): string { preferred + "-" + Decimal(i) }

  lemma CandidateInjective(preferred: string, i: nat, j: nat)
    requires Candidate(preferred, i) == Candidate(preferred, j)
    ensures i == j
  {
    var p := preferred + "-";
    assert Candidate(preferred, i)[|p|..] == Decimal(i) && Candidate(preferred, j)[|p|..] == Decimal(j);
    DecimalInjective(i, j);
  }

  /** The preferred key if it is free, otherwise the first free numbered variant from 2. */
  method AllocateUniqueStableKey(preferred: string, existing: set<string>) returns (key: string, used: set<string>)
    ensures key !in existing && used == existing + {key}
    ensures preferred !in existing ==> key == preferred
    ensures preferred in existing ==>
              exists i :: 2 <= i && key == Candidate(preferred, i)
                && forall j :: 2 <= j < i ==> Candidate(preferred, j) in existing
    ensures forall i: nat :: Candidate(preferred, i) == preferred + "-" + Decimal(i)
  {
    if preferred !in existing { return preferred, existing + {preferred}; }
    var i := 2;
    ghost var untried := existing;
    while Candidate(preferred, i) in existing
      invariant 2 <= i
      invariant forall j :: i <= j && Candidate(preferred, j) in existing ==> Candidate(preferred, j) in untried
      invariant forall j :: 2 <= j < i ==> Candidate(preferred, j) in existing
      decreases |untried|
    {
      forall j | i < j ensures Candidate(preferred, j) != Candidate(preferred, i) {
        if Candidate(preferred, j) == Candidate(preferred, i) { CandidateInjective(preferred, j, i); }
      }
      untried := untried - {Candidate(preferred, i)};
      i := i + 1;
    }
    key := Candidate(preferred, i);
    used := existing + {key};
  }

  // ---------------------------------------------------------------- the year that is written

  /** Three terms in order, each with its thirteen weeks in order. */
  ghost predicate InOrderYear(year: seq<YearTerm>) {
    && |year| == FULL_YEAR_TERMS
    && forall k :: 0 <= k < FULL_YEAR_TERMS ==> year[k].term == Some(k + 1) && InOrderTerm(year[k].topics)
  }

  ghost predicate InOrderTerm(topics: seq<Topic>) {
    |topics| == WEEKS_PER_TERM && forall w :: 0 <= w < WEEKS_PER_TERM ==> topics[w].weekNumber == Some(w + 1)
  }

  lemma RepairedInOrder(terms: seq<YearTerm>)
    ensures InOrderYear(Repaired(terms))
  {
    hide Padded;
    forall k, w | 0 <= k < FULL_YEAR_TERMS && 0 <= w < WEEKS_PER_TERM
      ensures Repaired(terms)[k].topics[w].weekNumber == Some(w + 1)
    {
      PaddedAt(LastTermTopics(terms, k + 1), WEEKS_PER_TERM, w + 1);
    }
  }

  ghost function Written(year: seq<YearTerm>, s: SlotKey): Content
    requires InOrderYear(year) && InYearGrid(s)
  {
    ContentOf(year[s.0 - 1].topics[s.1 - 1], s.1)
  }

  // ---------------------------------------------------------------- which row serves a slot

  ghost predicate ValidTable(t: Table) {
    && (forall i :: 0 <= i < |t.rows| ==> t.rows[i].id < t.nextId)
    && (forall i, j :: 0 <= i < j < |t.rows| ==> t.rows[i].id != t.rows[j].id)
  }

  ghost predicate Occupied(rows: seq<TopicRow>, s: SlotKey) {
    exists i :: 0 <= i < |rows| && rows[i].slot == s
  }

  /** Row `i` is the last one on its slot. */
  ghost predicate LastOnSlot(rows: seq<TopicRow>, i: nat)
    requires i < |rows|
  {
    forall j :: i < j < |rows| ==> rows[j].slot != rows[i].slot
  }

  /** Row `i` is the one kept for a slot numbered below `k`. */
  ghost predicate Serves(rows: seq<TopicRow>, i: nat, k: nat)
    requires i < |rows|
  {
    LastOnSlot(rows, i) && InYearGrid(rows[i].slot) && NumberOfSlot(rows[i].slot) < k
  }

  // ---------------------------------------------------------------- the effect on the table

  /** What becomes of an old row once the first `k` slots have been written. */
  ghost predicate OldRow(before: Table, row: TopicRow, i: nat, year: seq<YearTerm>, k: nat, staleLive: bool)
    requires InOrderYear(year) && i < |before.rows|
  {
    var was := before.rows[i];
    if Serves(before.rows, i, k) then row == was.(content := Written(year, was.slot), live := true)
    else row == was.(live := was.live && staleLive)
  }

  /** A row created for a slot below `k` that no old row had. */
  ghost predicate NewRow(before: Table, row: TopicRow, j: nat, year: seq<YearTerm>, k: nat)
    requires InOrderYear(year) && |before.rows| <= j
  {
    && row.id == before.nextId + (j - |before.rows|)
    && row.live
    && InYearGrid(row.slot) && NumberOfSlot(row.slot) < k
    && !Occupied(before.rows, row.slot)
    && row.content == Written(year, row.slot)
  }

  ghost predicate OldRows(before: Table, after: Table, year: seq<YearTerm>, k: nat, staleLive: bool)
    requires InOrderYear(year)
  {
    && |before.rows| <= |after.rows|
    && forall i :: 0 <= i < |before.rows| ==> OldRow(before, after.rows[i], i, year, k, staleLive)
  }

  /** The created rows, in slot order. */
  ghost predicate NewRows(before: Table, after: Table, year: seq<YearTerm>, k: nat)
    requires InOrderYear(year)
  {
    && after.nextId == before.nextId + |after.rows| - |before.rows|
    && (forall j :: |before.rows| <= j < |after.rows| ==> NewRow(before, after.rows[j], j, year, k))
    && (forall i, j :: |before.rows| <= i < j < |after.rows| ==>
          NumberOfSlot(after.rows[i].slot) < NumberOfSlot(after.rows[j].slot))
  }

  ghost predicate AllOccupied(rows: seq<TopicRow>, k: nat) {
    forall m :: 0 <= m < k && m < FULL_YEAR_WEEKS ==> Occupied(rows, SlotNumber(m))
  }

  /** From row `n` on, no row repeats the key of an earlier one. */
  ghost predicate NewKeys(rows: seq<TopicRow>, n: nat) {
    forall i, j :: 0 <= i < j < |rows| && n <= j ==> rows[i].stableKey != rows[j].stableKey
  }

  /** The table after the first `k` slots; `staleLive` until the rows that serve no slot are deprecated. */
  ghost predicate Upserted(before: Table, after: Table, year: seq<YearTerm>, k: nat, staleLive: bool)
    requires InOrderYear(year)
  {
    && OldRows(before, after, year, k, staleLive)
    && NewRows(before, after, year, k)
    && AllOccupied(after.rows, k)
    && NewKeys(after.rows, |before.rows|)
  }

  /**
   The whole transaction: old rows keep id, key and slot; the last old row of each of the 39 slots is live and
   rewritten; every other old row is deprecated; each slot without an old row has one new live row, under a new
   stable key.
   */
  ghost predicate Reconciled(before: Table, after: Table, year: seq<YearTerm>)
    requires InOrderYear(year)
  {
    Upserted(before, after, year, FULL_YEAR_WEEKS, false)
  }

  // ---------------------------------------------------------------- operations

  function Rewrite(rows: seq<TopicRow>, id: nat, content: Content): (r: seq<TopicRow>)
    ensures |r| == |rows|
  {
    seq(|rows|, i requires 0 <= i < |rows| => if rows[i].id == id then rows[i].(content := content, live := true) else rows[i])
  }

  function Retire(rows: seq<TopicRow>, ids: set<nat>): (r: seq<TopicRow>)
    ensures |r| == |rows|
  {
    seq(|rows|, i requires 0 <= i < |rows| => if rows[i].id in ids then rows[i].(live := false) else rows[i])
  }

  function ApplyOp(t: Table, op: Op): Table {
    match op
    case Update(id, content) => Table(Rewrite(t.rows, id, content), t.nextId)
    case Create(key, slot, content) => Table(t.rows + [TopicRow(t.nextId, key, slot, content, true)], t.nextId + 1)
    case Deprecate(ids) => Table(Retire(t.rows, ids), t.nextId)
  }

  function ApplyOps(t: Table, ops: seq<Op>): Table {
    if ops == [] then t else ApplyOp(ApplyOps(t, ops[..|ops| - 1]), ops[|ops| - 1])
  }

  lemma ApplyOpsSnoc(t: Table, ops: seq<Op>, op: Op)
    ensures ApplyOps(t, ops + [op]) == ApplyOp(ApplyOps(t, ops), op)
  {
    assert (ops + [op])[..|ops + [op]| - 1] == ops;
  }

  lemma OccupiedBySlot(rows: seq<TopicRow>, i: nat)
    requires i < |rows|
    ensures Occupied(rows, rows[i].slot)
  {
  }

  lemma SameSlots(a: seq<TopicRow>, b: seq<TopicRow>, k: nat)
    requires AllOccupied(a, k) && |a| <= |b|
    requires forall i :: 0 <= i < |a| ==> a[i].slot == b[i].slot
    ensures AllOccupied(b, k)
  {
    forall m | 0 <= m < k && m < FULL_YEAR_WEEKS ensures Occupied(b, SlotNumber(m)) {
      assert Occupied(a, SlotNumber(m));
      var j :| 0 <= j < |a| && a[j].slot == SlotNumber(m);
      OccupiedBySlot(b, j);
    }
  }

  lemma OneMoreOccupied(rows: seq<TopicRow>, k: nat, i: nat)
    requires AllOccupied(rows, k) && k < FULL_YEAR_WEEKS && i < |rows| && rows[i].slot == SlotNumber(k)
    ensures AllOccupied(rows, k + 1)
  {
    OccupiedBySlot(rows, i);
  }

  lemma UpdateOldRows(before: Table, t: Table, year: seq<YearTerm>, k: nat, i: nat)
    requires ValidTable(before) && InOrderYear(year) && k < FULL_YEAR_WEEKS
    requires OldRows(before, t, year, k, true)
    requires i < |before.rows| && LastOnSlot(before.rows, i) && before.rows[i].slot == SlotNumber(k)
    ensures OldRows(before, ApplyOp(t, Update(before.rows[i].id, Written(year, SlotNumber(k)))), year, k + 1, true)
  {
    hide Written;
    var s := SlotNumber(k);
    var after := ApplyOp(t, Update(before.rows[i].id, Written(year, s)));
    forall j | 0 <= j < |before.rows| ensures OldRow(before, after.rows[j], j, year, k + 1, true) {
      assert OldRow(before, t.rows[j], j, year, k, true);
      if j != i && LastOnSlot(before.rows, j) && InYearGrid(before.rows[j].slot) {
        assert before.rows[j].slot != s;
        assert NumberOfSlot(before.rows[j].slot) != k by { SlotNumberOf(before.rows[j].slot); }
      }
      if j == i { SlotNumberRoundTrip(k); }
    }
  }

  lemma UpdateStep(before: Table, t: Table, year: seq<YearTerm>, k: nat, i: nat)
    requires ValidTable(before) && InOrderYear(year) && k < FULL_YEAR_WEEKS
    requires Upserted(before, t, year, k, true)
    requires i < |before.rows| && LastOnSlot(before.rows, i) && before.rows[i].slot == SlotNumber(k)
    ensures Upserted(before, ApplyOp(t, Update(before.rows[i].id, Written(year, SlotNumber(k)))), year, k + 1, true)
  {
    hide Written, OldRow, AllOccupied;
    var after := ApplyOp(t, Update(before.rows[i].id, Written(year, SlotNumber(k))));
    UpdateOldRows(before, t, year, k, i);
    forall j | |before.rows| <= j < |after.rows|
      ensures NewRow(before, after.rows[j], j, year, k + 1) && after.rows[j] == t.rows[j]
    {
      assert NewRow(before, t.rows[j], j, year, k);
    }
    SameSlots(t.rows, after.rows, k);
    assert after.rows[i].slot == SlotNumber(k) by {
      assert OldRow(before, t.rows[i], i, year, k, true);
      KeepsIdentity(before, t.rows[i], i, year, k, true);
    }
    OneMoreOccupied(after.rows, k, i);
  }

  /** An old row never changes its id, key or slot. */
  lemma KeepsIdentity(before: Table, row: TopicRow, i: nat, year: seq<YearTerm>, k: nat, staleLive: bool)
    requires InOrderYear(year) && i < |before.rows| && OldRow(before, row, i, year, k, staleLive)
    ensures row.id == before.rows[i].id && row.stableKey == before.rows[i].stableKey && row.slot == before.rows[i].slot
  {
  }

  lemma CreateStep(before: Table, t: Table, year: seq<YearTerm>, k: nat, key: string)
    requires ValidTable(before) && InOrderYear(year) && k < FULL_YEAR_WEEKS
    requires Upserted(before, t, year, k, true)
    requires !Occupied(before.rows, SlotNumber(k))
    requires forall i :: 0 <= i < |t.rows| ==> t.rows[i].stableKey != key
    ensures Upserted(before, ApplyOp(t, Create(key, SlotNumber(k), Written(year, SlotNumber(k)))), year, k + 1, true)
  {
    hide Written, AllOccupied;
    var s := SlotNumber(k);
    var after := ApplyOp(t, Create(key, s, Written(year, s)));
    SlotNumberRoundTrip(k);
    forall j | 0 <= j < |before.rows| ensures OldRow(before, after.rows[j], j, year, k + 1, true) {
      assert OldRow(before, t.rows[j], j, year, k, true);
      OccupiedBySlot(before.rows, j);
      if InYearGrid(before.rows[j].slot) { SlotNumberOf(before.rows[j].slot); }
    }
    forall j | |before.rows| <= j < |after.rows| ensures NewRow(before, after.rows[j], j, year, k + 1) {
      if j < |t.rows| { assert NewRow(before, t.rows[j], j, year, k); }
    }
    forall i, j | |before.rows| <= i < j < |after.rows|
      ensures NumberOfSlot(after.rows[i].slot) < NumberOfSlot(after.rows[j].slot)
    {
      assert NewRow(before, t.rows[i], i, year, k);
    }
    SameSlots(t.rows, after.rows, k);
    OneMoreOccupied(after.rows, k, |t.rows|);
  }

  lemma DeprecateStep(before: Table, t: Table, year: seq<YearTerm>, stale: set<nat>)
    requires ValidTable(before) && InOrderYear(year)
    requires Upserted(before, t, year, FULL_YEAR_WEEKS, true)
    requires forall i :: 0 <= i < |before.rows| ==> (before.rows[i].id in stale <==> !Serves(before.rows, i, FULL_YEAR_WEEKS))
    requires forall i :: before.nextId <= i ==> i !in stale
    ensures Reconciled(before, ApplyOp(t, Deprecate(stale)), year)
  {
    hide Written, AllOccupied, Serves;
    var after := ApplyOp(t, Deprecate(stale));
    forall j | 0 <= j < |before.rows| ensures OldRow(before, after.rows[j], j, year, FULL_YEAR_WEEKS, false) {
      assert OldRow(before, t.rows[j], j, year, FULL_YEAR_WEEKS, true);
    }
    forall j | |before.rows| <= j < |after.rows| ensures after.rows[j] == t.rows[j] {
      assert NewRow(before, t.rows[j], j, year, FULL_YEAR_WEEKS);
    }
    SameSlots(t.rows, after.rows, FULL_YEAR_WEEKS);
  }

  // ---------------------------------------------------------------- planning and running the transaction

  /** The keys in use: an empty key does not count. */
  ghost predicate KeysIn(rows: seq<TopicRow>, used: set<string>) {
    forall i :: 0 <= i < |rows| ==> rows[i].stableKey == "" || rows[i].stableKey in used
  }

  lemma OpKeepsKeys(t: Table, op: Op, usedBefore: set<string>, used: set<string>)
    requires KeysIn(t.rows, usedBefore) && usedBefore <= used && (op.Create? ==> op.stableKey in used)
    ensures KeysIn(ApplyOp(t, op).rows, used)
  {
  }

  ghost predicate SlotIndex(rows: seq<TopicRow>, bySlot: map<SlotKey, nat>) {
    && (forall i :: 0 <= i < |rows| ==> rows[i].slot in bySlot)
    && (forall s :: s in bySlot ==> bySlot[s] < |rows| && rows[bySlot[s]].slot == s && LastOnSlot(rows, bySlot[s]))
  }

  /** `new Map(existing.map((t) => [slot, t]))`: a later row replaces an earlier one. */
  method IndexBySlot(rows: seq<TopicRow>) returns (bySlot: map<SlotKey, nat>)
    ensures SlotIndex(rows, bySlot)
  {
    bySlot := map[];
    for i := 0 to |rows|
      invariant SlotIndex(rows[..i], bySlot)
    {
      bySlot := bySlot[rows[i].slot := i];
    }
    assert rows[..|rows|] == rows;
  }

  ghost predicate SeenExactly(rows: seq<TopicRow>, seen: set<nat>, k: nat) {
    forall i :: 0 <= i < |rows| ==> (rows[i].id in seen <==> Serves(rows, i, k))
  }

  lemma SeeRow(t: Table, seen: set<nat>, k: nat, i: nat)
    requires ValidTable(t) && SeenExactly(t.rows, seen, k) && k < FULL_YEAR_WEEKS
    requires i < |t.rows| && LastOnSlot(t.rows, i) && t.rows[i].slot == SlotNumber(k)
    ensures SeenExactly(t.rows, seen + {t.rows[i].id}, k + 1)
  {
    SlotNumberRoundTrip(k);
    forall j | 0 <= j < |t.rows| ensures t.rows[j].id in seen + {t.rows[i].id} <==> Serves(t.rows, j, k + 1) {
      if j != i && LastOnSlot(t.rows, j) && InYearGrid(t.rows[j].slot) { SlotNumberOf(t.rows[j].slot); }
    }
  }

  lemma SkipSlot(t: Table, seen: set<nat>, k: nat)
    requires SeenExactly(t.rows, seen, k) && k < FULL_YEAR_WEEKS && !Occupied(t.rows, SlotNumber(k))
    ensures SeenExactly(t.rows, seen, k + 1)
  {
    hide Serves, Occupied, SlotNumber;
    forall j | 0 <= j < |t.rows| ensures Serves(t.rows, j, k) <==> Serves(t.rows, j, k + 1) { ServesSkipped(t.rows, j, k); }
  }

  lemma ServesSkipped(rows: seq<TopicRow>, j: nat, k: nat)
    requires j < |rows| && k < FULL_YEAR_WEEKS && !Occupied(rows, SlotNumber(k))
    ensures Serves(rows, j, k) <==> Serves(rows, j, k + 1)
  {
    hide LastOnSlot, SlotNumber;
    OccupiedBySlot(rows, j);
    if InYearGrid(rows[j].slot) { SlotNumberOf(rows[j].slot); }
  }

  lemma NothingYet(before: Table, year: seq<YearTerm>)
    requires InOrderYear(year)
    ensures Upserted(before, before, year, 0, true) && SeenExactly(before.rows, {}, 0)
  {
  }

  lemma WrittenAt(year: seq<YearTerm>, b: nat, index: nat)
    requires InOrderYear(year) && b < FULL_YEAR_TERMS && index < WEEKS_PER_TERM
    ensures Written(year, (b + 1, index + 1)) == ContentOf(year[b].topics[index], index + 1)
    ensures SlotNumber(WEEKS_PER_TERM * b + index) == (b + 1, index + 1)
    ensures year[b].term == Some(b + 1) && |year[b].topics| == WEEKS_PER_TERM
    ensures year[b].topics[index].weekNumber == Some(index + 1)
  {
  }

  lemma IndexedRow(rows: seq<TopicRow>, bySlot: map<SlotKey, nat>, s: SlotKey)
    requires SlotIndex(rows, bySlot)
    ensures s in bySlot <==> Occupied(rows, s)
    ensures s in bySlot ==> bySlot[s] < |rows| && rows[bySlot[s]].slot == s && LastOnSlot(rows, bySlot[s])
  {
  }

  lemma InitialKeys(rows: seq<TopicRow>, used: set<string>)
    requires forall r :: r in rows && r.stableKey != "" ==> r.stableKey in used
    ensures KeysIn(rows, used)
  {
    forall i | 0 <= i < |rows| ensures rows[i].stableKey == "" || rows[i].stableKey in used { assert rows[i] in rows; }
  }

  lemma FreshKey(rows: seq<TopicRow>, used: set<string>, key: string)
    requires KeysIn(rows, used) && key !in used && key != ""
    ensures forall i :: 0 <= i < |rows| ==> rows[i].stableKey != key
  {
  }

  lemma StaleRows(t: Table, seen: set<nat>, stale: set<nat>)
    requires ValidTable(t) && SeenExactly(t.rows, seen, FULL_YEAR_WEEKS)
    requires stale == set r | r in t.rows && r.id !in seen :: r.id
    ensures forall i :: 0 <= i < |t.rows| ==> (t.rows[i].id in stale <==> !Serves(t.rows, i, FULL_YEAR_WEEKS))
    ensures forall id :: t.nextId <= id ==> id !in stale
  {
    forall i | 0 <= i < |t.rows| ensures t.rows[i].id in stale <==> t.rows[i].id !in seen {
      assert t.rows[i] in t.rows;
    }
  }

  /** After each of the first operations one more slot is written. */
  ghost predicate UpsertsInOrder(existing: Table, ops: seq<Op>, year: seq<YearTerm>)
    requires InOrderYear(year)
  {
    forall k :: 0 <= k <= |ops| ==> Upserted(existing, ApplyOps(existing, ops[..k]), year, k, true)
  }

  lemma NothingApplied(existing: Table)
    ensures ApplyOps(existing, []) == existing
  {
  }

  lemma NothingWritten(existing: Table, year: seq<YearTerm>)
    requires InOrderYear(year) && Upserted(existing, existing, year, 0, true)
    ensures UpsertsInOrder(existing, [], year)
  {
    hide Upserted;
    var none: seq<Op> := [];
    assert none[..0] == none;
  }

  lemma OneMoreUpsert(existing: Table, ops: seq<Op>, op: Op, year: seq<YearTerm>)
    requires InOrderYear(year) && UpsertsInOrder(existing, ops, year)
    requires Upserted(existing, ApplyOp(ApplyOps(existing, ops), op), year, |ops| + 1, true)
    ensures UpsertsInOrder(existing, ops + [op], year)
    ensures ApplyOps(existing, ops + [op]) == ApplyOp(ApplyOps(existing, ops), op)
  {
    hide Upserted, ApplyOp;
    ApplyOpsSnoc(existing, ops, op);
    forall k | 0 <= k <= |ops + [op]| ensures Upserted(existing, ApplyOps(existing, (ops + [op])[..k]), year, k, true) {
      if k <= |ops| { assert (ops + [op])[..k] == ops[..k]; } else { assert (ops + [op])[..k] == ops + [op]; }
    }
  }

  lemma LatestUpsert(existing: Table, ops: seq<Op>, year: seq<YearTerm>)
    requires InOrderYear(year) && UpsertsInOrder(existing, ops, year)
    ensures Upserted(existing, ApplyOps(existing, ops), year, |ops|, true)
  {
    hide Upserted;
    assert ops[..|ops|] == ops;
  }

  /** With nothing stale the last operation can be left out. */
  lemma NothingStale(t: Table)
    ensures ApplyOp(t, Deprecate({})) == t
  {
  }

  /** The operations of the transaction: an upsert for each slot in order, then the deprecation of what was not seen. */
  ghost predicate IsTransaction(existing: Table, ops: seq<Op>, year: seq<YearTerm>)
    requires InOrderYear(year)
  {
    && FULL_YEAR_WEEKS <= |ops| <= FULL_YEAR_WEEKS + 1
    && UpsertsInOrder(existing, ops[..FULL_YEAR_WEEKS], year)
    && Reconciled(existing, ApplyOps(existing, ops), year)
  }

  lemma Deprecated(existing: Table, ops: seq<Op>, year: seq<YearTerm>, seen: set<nat>, stale: set<nat>, all: seq<Op>)
    requires ValidTable(existing) && InOrderYear(year) && |ops| == FULL_YEAR_WEEKS && UpsertsInOrder(existing, ops, year)
    requires SeenExactly(existing.rows, seen, FULL_YEAR_WEEKS)
    requires stale == set r | r in existing.rows && r.id !in seen :: r.id
    requires all == if stale == {} then ops else ops + [Deprecate(stale)]
    ensures IsTransaction(existing, all, year)
  {
    hide Upserted, SeenExactly, UpsertsInOrder, ApplyOp, Reconciled;
    StaleRows(existing, seen, stale);
    LatestUpsert(existing, ops, year);
    DeprecateStep(existing, ApplyOps(existing, ops), year, stale);
    ApplyOpsSnoc(existing, ops, Deprecate(stale));
    NothingStale(ApplyOps(existing, ops));
    assert all[..FULL_YEAR_WEEKS] == ops;
  }

  method PlanConsolidation(existing: Table, year: seq<YearTerm>, preferredKey: (SlotKey, string) -> string) returns (ops: seq<Op>)
    requires ValidTable(existing) && InOrderYear(year)
    requires forall s, title :: preferredKey(s, title) != ""
    ensures IsTransaction(existing, ops, year)
  {
    hide Upserted, UpsertsInOrder, IsTransaction, KeysIn, SeenExactly, ApplyOps, ApplyOp, Written, SlotIndex, LastOnSlot, Occupied, SlotNumber, ContentOf;
    var bySlot := IndexBySlot(existing.rows);
    var used := set r | r in existing.rows && r.stableKey != "" :: r.stableKey;
    var seen: set<nat> := {};
    ops := [];
    NothingYet(existing, year);
    NothingWritten(existing, year);
    NothingApplied(existing);
    InitialKeys(existing.rows, used);
    for b := 0 to FULL_YEAR_TERMS
      invariant |ops| == WEEKS_PER_TERM * b && UpsertsInOrder(existing, ops, year)
      invariant SeenExactly(existing.rows, seen, |ops|)
      invariant KeysIn(ApplyOps(existing, ops).rows, used)
    {
      var termBlock := year[b];
      var term := termBlock.term.GetOr(1);
      for index := 0 to |termBlock.topics|
        invariant |ops| == WEEKS_PER_TERM * b + index && UpsertsInOrder(existing, ops, year)
        invariant SeenExactly(existing.rows, seen, |ops|)
        invariant KeysIn(ApplyOps(existing, ops).rows, used)
      {
        var t := termBlock.topics[index];
        var week := if t.weekNumber.Some? && t.weekNumber.value != 0 then t.weekNumber.value else index + 1;
        var slot := (term, week);
        var content := ContentOf(t, week);
        ghost var k: nat := |ops|;
        WrittenAt(year, b, index);
        LatestUpsert(existing, ops, year);
        ghost var now, usedBefore := ApplyOps(existing, ops), used;
        var op;
        IndexedRow(existing.rows, bySlot, slot);
        if slot in bySlot {
          var row := existing.rows[bySlot[slot]];
          SeeRow(existing, seen, k, bySlot[slot]);
          UpdateStep(existing, now, year, k, bySlot[slot]);
          seen := seen + {row.id};
          op := Update(row.id, content);
        } else {
          var title := TextOr(t.title, "Untitled Topic");
          var key;
          key, used := AllocateUniqueStableKey(preferredKey(slot, title), used);
          op := Create(key, slot, content);
          FreshKey(now.rows, usedBefore, key);
          CreateStep(existing, now, year, k, key);
          SkipSlot(existing, seen, k);
        }
        OneMoreUpsert(existing, ops, op, year);
        OpKeepsKeys(now, op, usedBefore, used);
        ops := ops + [op];
      }
    }
    var stale := set r | r in existing.rows && r.id !in seen :: r.id;
    ghost var upserts := ops;
    if stale != {} { ops := ops + [Deprecate(stale)]; }
    Deprecated(existing, upserts, year, seen, stale, ops);
  }

  /** The model's answer: its terms, and whether it carries the overview whose text is stored. */
  datatype Answer = Answer(terms: Option<seq<YearTerm>>, hasOverview: bool)

  datatype ConsolidationError = BadYear(error: YearError) | MissingOverview

  /** The topic rows of one curriculum. */
  class TopicStore {
    var rows: seq<TopicRow>
    var nextId: nat

    ghost function Contents(): Table
      reads this
    {
      Table(rows, nextId)
    }

    constructor ()
      ensures Contents() == Table([], 0)
    {
      rows, nextId := [], 0;
    }

    /** All operations, in order. */
    method RunTransaction(ops: seq<Op>)
      modifies this
      ensures Contents() == ApplyOps(old(Contents()), ops)
    {
      for i := 0 to |ops|
        invariant Contents() == ApplyOps(old(Contents()), ops[..i])
      {
        assert ops[..i + 1] == ops[..i] + [ops[i]];
        ApplyOpsSnoc(old(Contents()), ops[..i], ops[i]);
        var t := ApplyOp(Table(rows, nextId), ops[i]);
        rows, nextId := t.rows, t.nextId;
      }
      assert ops[..|ops|] == ops;
    }

    /** An answer without terms or without an overview is an error and changes nothing; any other is repaired and written. */
    method Consolidate(answer: Answer, preferredKey: (SlotKey, string) -> string) returns (problem: Option<ConsolidationError>)
      requires ValidTable(Contents())
      requires forall s, title :: preferredKey(s, title) != ""
      modifies this
      ensures problem == if answer.terms.None? then Some(BadYear(MissingTerms))
                         else if !answer.hasOverview then Some(MissingOverview) else None
      ensures problem.Some? ==> Contents() == old(Contents())
      ensures problem.None? ==>
                && InOrderYear(Repaired(answer.terms.value))
                && Reconciled(old(Contents()), Contents(), Repaired(answer.terms.value))
      ensures ValidTable(Contents())
    {
      hide Reconciled, Repaired, UpsertsInOrder;
      var result := NormalizeConsolidateResult(answer.terms);
      if answer.terms.Some? { RepairedPassesCheck(answer.terms.value); }
      var invalid := YearProblem(result);
      if invalid.Some? { return Some(BadYear(invalid.value)); }
      if !answer.hasOverview { return Some(MissingOverview); }
      RepairedInOrder(answer.terms.value);
      var ops := PlanConsolidation(Table(rows, nextId), result.value, preferredKey);
      RunTransaction(ops);
      ReconciledValid(old(Contents()), Contents(), result.value);
      problem := None;
    }
  }

  // ---------------------------------------------------------------- what the transaction guarantees

  lemma ReconciledValid(before: Table, after: Table, year: seq<YearTerm>)
    requires InOrderYear(year) && ValidTable(before) && Reconciled(before, after, year)
    ensures ValidTable(after)
  {
    hide Written, AllOccupied, Serves;
    forall i | 0 <= i < |after.rows|
      ensures after.rows[i].id == if i < |before.rows| then before.rows[i].id else before.nextId + (i - |before.rows|)
    {
      if i < |before.rows| {
        assert OldRow(before, after.rows[i], i, year, FULL_YEAR_WEEKS, false);
      } else {
        assert NewRow(before, after.rows[i], i, year, FULL_YEAR_WEEKS);
      }
    }
  }

  /** No row is lost, and none that was there changes its id, stable key or slot. */
  lemma IdentityKept(before: Table, after: Table, year: seq<YearTerm>, i: nat)
    requires InOrderYear(year) && Reconciled(before, after, year) && i < |before.rows|
    ensures i < |after.rows|
    ensures after.rows[i].id == before.rows[i].id
    ensures after.rows[i].stableKey == before.rows[i].stableKey
    ensures after.rows[i].slot == before.rows[i].slot
    ensures after.rows[i].live <==> InYearGrid(before.rows[i].slot) && LastOnSlot(before.rows, i)
  {
    hide Written;
    assert OldRow(before, after.rows[i], i, year, FULL_YEAR_WEEKS, false);
  }

  /** The live rows' slots, in row order. */
  function LiveSlots(rows: seq<TopicRow>): seq<SlotKey> {
    if rows == [] then []
    else LiveSlots(rows[..|rows| - 1]) + if rows[|rows| - 1].live then [rows[|rows| - 1].slot] else []
  }

  lemma {:induction false} LiveSlotsMember(rows: seq<TopicRow>, s: SlotKey)
    ensures s in LiveSlots(rows) <==> exists i :: 0 <= i < |rows| && rows[i].live && rows[i].slot == s
  {
    if rows != [] {
      var init := rows[..|rows| - 1];
      LiveSlotsMember(init, s);
      assert forall i :: 0 <= i < |init| ==> init[i] == rows[i];
    }
  }

  lemma {:induction false} LiveSlotsDistinct(rows: seq<TopicRow>)
    requires forall i, j :: 0 <= i < j < |rows| && rows[i].live && rows[j].live ==> rows[i].slot != rows[j].slot
    ensures Distinct(LiveSlots(rows))
  {
    if rows != [] {
      var init := rows[..|rows| - 1];
      LiveSlotsDistinct(init);
      LiveSlotsMember(init, rows[|rows| - 1].slot);
    }
  }

  /** A live row after the transaction is on the grid, carries what was written, and no later row shares its slot. */
  lemma LiveRow(before: Table, after: Table, year: seq<YearTerm>, i: nat)
    requires InOrderYear(year) && Reconciled(before, after, year) && i < |after.rows| && after.rows[i].live
    ensures InYearGrid(after.rows[i].slot) && after.rows[i].content == Written(year, after.rows[i].slot)
    ensures LastOnSlot(after.rows, i)
    ensures |before.rows| <= i ==> !Occupied(before.rows, after.rows[i].slot)
  {
    hide Written;
    if i < |before.rows| {
      assert OldRow(before, after.rows[i], i, year, FULL_YEAR_WEEKS, false);
      OccupiedBySlot(before.rows, i);
    } else {
      assert NewRow(before, after.rows[i], i, year, FULL_YEAR_WEEKS);
    }
    forall j | i < j < |after.rows| ensures after.rows[j].slot != after.rows[i].slot {
      if j < |before.rows| {
        IdentityKept(before, after, year, j);
      } else {
        assert NewRow(before, after.rows[j], j, year, FULL_YEAR_WEEKS);
      }
    }
  }

  /** The row's content is that of the week, field by field. */
  predicate Holds(content: Content, week: Topic) {
    && week.title == Some(content.title)
    && week.description == content.description
    && week.subTopics == Some(content.subTopics)
    && week.learningOutcomes == Some(content.learningOutcomes)
    && week.studentFriendlyOutcomes == Some(content.studentFriendlyOutcomes)
    && week.suggestedActivities == Some(content.suggestedActivities)
    && week.resources == Some(content.resources)
    && week.assessmentType == content.assessmentType
    && week.order == Some(content.order)
  }

  lemma {:induction false} RepairedWeekFilled(topics: seq<Topic>, w: nat)
    requires 1 <= w <= WEEKS_PER_TERM
    ensures var r := Padded(topics, WEEKS_PER_TERM)[w - 1];
            && HasText(r.title) && r.order.Some? && r.order.value != 0 && r.subTopics.Some? && r.learningOutcomes.Some?
            && r.studentFriendlyOutcomes.Some? && r.suggestedActivities.Some? && r.resources.Some?
  {
    hide Padded, EnsureReservedWeek, MakeFillerWeek;
    PaddedAt(topics, WEEKS_PER_TERM, w);
    PaddedNext(topics, w);
    var own, before := FirstFor(topics, |topics|, w), Padded(topics, w - 1);
    if own.Some? {
      EnsuredFilled(own.value, w);
    } else {
      var previous := if w == 1 then None else Some(before[w - 2]);
      FillerShape(w, previous);
      FillerTexts(w, previous);
    }
  }

  lemma EnsuredFilled(topic: Topic, w: nat)
    requires 1 <= w <= WEEKS_PER_TERM
    ensures var r := EnsureReservedWeek(topic, w);
            && HasText(r.title) && r.order.Some? && r.order.value != 0 && r.subTopics.Some? && r.learningOutcomes.Some?
            && r.studentFriendlyOutcomes.Some? && r.suggestedActivities.Some? && r.resources.Some?
  {
    hide ReservedTitle;
    RepairedTitleFits(topic.title, w);
  }

  /** What is on a live row afterwards: every field of the repaired answer's week. */
  lemma LiveRowHolds(before: Table, after: Table, terms: seq<YearTerm>, i: nat)
    requires InOrderYear(Repaired(terms)) && Reconciled(before, after, Repaired(terms))
    requires i < |after.rows| && after.rows[i].live
    ensures InYearGrid(after.rows[i].slot)
    ensures var (k, w) := after.rows[i].slot; Holds(after.rows[i].content, Repaired(terms)[k - 1].topics[w - 1])
  {
    hide Reconciled, Padded;
    LiveRow(before, after, Repaired(terms), i);
    var (k, w) := after.rows[i].slot;
    RepairedWeekFilled(LastTermTopics(terms, k), w);
  }

  /**
   From the answer to the row: the live row of a slot carries, field by field, the first topic written for that week in
   the last term of that number.
   */
  lemma AnswerReachesRow(before: Table, after: Table, terms: seq<YearTerm>, row: nat, j: nat, i: nat)
    requires InOrderYear(Repaired(terms)) && Reconciled(before, after, Repaired(terms))
    requires row < |after.rows| && after.rows[row].live
    requires j < |terms| && LastNumbered(terms, j, after.rows[row].slot.0)
    requires i < |terms[j].topics| && FirstWrittenFor(terms[j].topics, i, after.rows[row].slot.1)
    ensures var (content, topic) := (after.rows[row].content, terms[j].topics[i]);
            && content.description == topic.description
            && Given(Some(content.subTopics), topic.subTopics)
            && Given(Some(content.learningOutcomes), topic.learningOutcomes)
            && Given(Some(content.studentFriendlyOutcomes), topic.studentFriendlyOutcomes)
            && Given(Some(content.suggestedActivities), topic.suggestedActivities)
            && Given(Some(content.resources), topic.resources)
            && (HasText(topic.assessmentType) ==> content.assessmentType == topic.assessmentType)
            && (topic.order.Some? && topic.order.value != 0 ==> content.order == topic.order.value)
    ensures var (k, w) := after.rows[row].slot;
            && InYearGrid((k, w))
            && Carries(Repaired(terms)[k - 1].topics[w - 1], terms[j].topics[i], w)
            && TitledFor(terms[j].topics[i].(title := Some(after.rows[row].content.title)), terms[j].topics[i], w)
  {
    hide Reconciled, Repaired, MidTermTitle, EndOfTermTitle, ExaminationTitle;
    LiveRowHolds(before, after, terms, row);
    var (k, w) := after.rows[row].slot;
    RepairedCarriesOwnTopic(terms, j, k, i, w);
  }

  /** In an answer that passes the check every topic reaches the row of its own term and week. */
  lemma PassingAnswerReachesRows(before: Table, after: Table, terms: seq<YearTerm>, row: nat, t: nat, i: nat)
    requires InOrderYear(Repaired(terms)) && Reconciled(before, after, Repaired(terms))
    requires row < |after.rows| && after.rows[row].live
    requires IsFullYear(terms) && t < |terms| && i < |terms[t].topics|
    requires after.rows[row].slot == (terms[t].term.GetOr(0), CheckedWeek(terms[t].topics, i))
    ensures var (content, topic) := (after.rows[row].content, terms[t].topics[i]);
            && (HasText(topic.title) ==> content.title == topic.title.value)
            && content.description == topic.description
            && Given(Some(content.subTopics), topic.subTopics)
            && Given(Some(content.learningOutcomes), topic.learningOutcomes)
            && Given(Some(content.studentFriendlyOutcomes), topic.studentFriendlyOutcomes)
            && Given(Some(content.suggestedActivities), topic.suggestedActivities)
            && Given(Some(content.resources), topic.resources)
            && (HasText(topic.assessmentType) ==> content.assessmentType == topic.assessmentType)
            && (topic.order.Some? && topic.order.value != 0 ==> content.order == topic.order.value)
  {
    hide Reconciled, Repaired, IsFullTerm, MidTermTitle, EndOfTermTitle, ExaminationTitle, Carries, TitledFor;
    var k := TermNumbersDiffer(terms, t);
    assert LastNumbered(terms, t, k);
    PassingTopicFirst(terms[t].topics, i);
    AnswerReachesRow(before, after, terms, row, t, i);
    PassingAnswerKept(terms, t, i);
    LiveRowHolds(before, after, terms, row);
  }

  lemma PassingTopicFirst(topics: seq<Topic>, i: nat)
    requires IsFullTerm(topics) && i < |topics|
    ensures FirstWrittenFor(topics, i, CheckedWeek(topics, i))
  {
    FullTermRange(topics);
    forall j | 0 <= j <= i ensures WrittenFor(topics, j, CheckedWeek(topics, i)) <==> j == i {
      assert 1 <= CheckedWeek(topics, j);
    }
  }

  lemma SlotHasLiveRow(before: Table, after: Table, year: seq<YearTerm>, s: SlotKey)
    requires InOrderYear(year) && Reconciled(before, after, year) && InYearGrid(s)
    ensures exists i :: 0 <= i < |after.rows| && after.rows[i].live && after.rows[i].slot == s
  {
    hide Written;
    var k := NumberOfSlot(s);
    SlotNumberOf(s);
    assert Occupied(after.rows, SlotNumber(k));
    var i := LastOn(after.rows, s);
    if i < |before.rows| {
      IdentityKept(before, after, year, i);
      forall j | i < j < |before.rows| ensures before.rows[j].slot != s { IdentityKept(before, after, year, j); }
    } else {
      assert NewRow(before, after.rows[i], i, year, FULL_YEAR_WEEKS);
    }
    assert after.rows[i].live;
  }

  lemma {:induction false} LastOn(rows: seq<TopicRow>, s: SlotKey) returns (i: nat)
    requires Occupied(rows, s)
    ensures i < |rows| && rows[i].slot == s && LastOnSlot(rows, i)
  {
    if rows[|rows| - 1].slot == s { return |rows| - 1; }
    var init := rows[..|rows| - 1];
    var w :| 0 <= w < |rows| && rows[w].slot == s;
    assert init[w].slot == s;
    i := LastOn(init, s);
  }

  /**
   Whatever rows there were (deprecated, several on one slot, out of range) and whatever terms the model answered
   with: exactly one live topic on each of the 39 slots and none elsewhere, so publishing is allowed.
   */
  lemma PublishableAfterConsolidation(before: Table, after: Table, year: seq<YearTerm>)
    requires InOrderYear(year) && Reconciled(before, after, year)
    ensures OncePerSlot(LiveSlots(after.rows)) && IsCompleteFullYearSlots(LiveSlots(after.rows))
  {
    hide Reconciled, Written;
    var rows := after.rows;
    forall i, j | 0 <= i < j < |rows| && rows[i].live && rows[j].live ensures rows[i].slot != rows[j].slot {
      LiveRow(before, after, year, i);
    }
    LiveSlotsDistinct(rows);
    forall s: SlotKey ensures s in LiveSlots(rows) <==> InYearGrid(s) {
      LiveSlotsMember(rows, s);
      if i :| 0 <= i < |rows| && rows[i].live && rows[i].slot == s { LiveRow(before, after, year, i); }
      if InYearGrid(s) { SlotHasLiveRow(before, after, year, s); }
    }
    CompleteIffOncePerSlot(LiveSlots(rows));
  }

  /** The database's uniqueness constraints on (term, week) and on stable keys. */
  ghost predicate UniqueRows(t: Table) {
    forall i, j :: 0 <= i < j < |t.rows| ==> t.rows[i].slot != t.rows[j].slot && t.rows[i].stableKey != t.rows[j].stableKey
  }

  lemma UpsertedUnique(before: Table, after: Table, year: seq<YearTerm>, k: nat, staleLive: bool)
    requires InOrderYear(year) && Upserted(before, after, year, k, staleLive) && UniqueRows(before)
    ensures UniqueRows(after)
  {
    hide Written, AllOccupied;
    forall i, j | 0 <= i < j < |after.rows|
      ensures after.rows[i].slot != after.rows[j].slot && after.rows[i].stableKey != after.rows[j].stableKey
    {
      if i < |before.rows| {
        assert OldRow(before, after.rows[i], i, year, k, staleLive);
        OccupiedBySlot(before.rows, i);
      }
      if j < |before.rows| {
        assert OldRow(before, after.rows[j], j, year, k, staleLive);
      } else {
        assert NewRow(before, after.rows[j], j, year, k);
      }
    }
  }

  /** The uniqueness constraints hold after every operation of the transaction, so none of them is refused. */
  lemma ConstraintsKept(existing: Table, ops: seq<Op>, year: seq<YearTerm>, n: nat)
    requires InOrderYear(year) && IsTransaction(existing, ops, year) && UniqueRows(existing) && n <= |ops|
    ensures UniqueRows(ApplyOps(existing, ops[..n]))
  {
    hide Upserted, UniqueRows, ApplyOps;
    if n <= FULL_YEAR_WEEKS {
      assert ops[..FULL_YEAR_WEEKS][..n] == ops[..n];
      UpsertedUnique(existing, ApplyOps(existing, ops[..n]), year, n, true);
    } else {
      assert ops[..n] == ops;
      UpsertedUnique(existing, ApplyOps(existing, ops), year, FULL_YEAR_WEEKS, false);
    }
  }

  /** Consolidating again creates no row: every row, live or not, is the same row as before. */
  lemma SecondConsolidationCreatesNothing(t0: Table, t1: Table, t2: Table, first: seq<YearTerm>, second: seq<YearTerm>)
    requires InOrderYear(first) && InOrderYear(second)
    requires Reconciled(t0, t1, first) && Reconciled(t1, t2, second)
    ensures |t2.rows| == |t1.rows| && t2.nextId == t1.nextId
    ensures forall i :: 0 <= i < |t1.rows| ==>
              && t2.rows[i].id == t1.rows[i].id && t2.rows[i].stableKey == t1.rows[i].stableKey
              && t2.rows[i].slot == t1.rows[i].slot && t2.rows[i].live == t1.rows[i].live
  {
    hide Written, Reconciled;
    if |t1.rows| < |t2.rows| {
      assert NewRow(t1, t2.rows[|t1.rows|], |t1.rows|, second, FULL_YEAR_WEEKS) by { FirstNew(t1, t2, second); }
      SlotHasLiveRow(t0, t1, first, t2.rows[|t1.rows|].slot);
      assert false;
    }
    assert |t1.rows| <= |t2.rows| && t2.nextId == t1.nextId + |t2.rows| - |t1.rows| by { FirstNew(t1, t2, second); }
    forall i | 0 <= i < |t1.rows|
      ensures && t2.rows[i].id == t1.rows[i].id && t2.rows[i].stableKey == t1.rows[i].stableKey
              && t2.rows[i].slot == t1.rows[i].slot && t2.rows[i].live == t1.rows[i].live
    {
      IdentityKept(t1, t2, second, i);
      if t1.rows[i].live { LiveRow(t0, t1, first, i); }
      if t2.rows[i].live {
        SlotHasLiveRow(t0, t1, first, t1.rows[i].slot);
        var j :| 0 <= j < |t1.rows| && t1.rows[j].live && t1.rows[j].slot == t1.rows[i].slot;
        LiveRow(t0, t1, first, j);
      }
    }
  }

  lemma FirstNew(before: Table, after: Table, year: seq<YearTerm>)
    requires InOrderYear(year) && Reconciled(before, after, year)
    ensures |before.rows| <= |after.rows| && after.nextId == before.nextId + |after.rows| - |before.rows|
    ensures |before.rows| < |after.rows| ==> NewRow(before, after.rows[|before.rows|], |before.rows|, year, FULL_YEAR_WEEKS)
  {
  }
}
