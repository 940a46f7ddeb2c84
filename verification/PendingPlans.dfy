/**
 Plans that an assistant proposes and an administrator applies, cancels or lets expire, one by one or in bulk
 (src/ai/lois-pending-plan.service.ts, src/ai/ai-curator-tools.service.ts).
 */
module PendingPlans {
  import opened Prelude
  import opened ClassLabels

  datatype PlanStatus = PROPOSED | APPLIED | CANCELLED | EXPIRED

  datatype PlanKind = TIMETABLE | SCHEME

  /** The payload's class label, if it has one, and the summary that stands in for it. */
  datatype Plan = Plan(
    userId: string, schoolId: string, conversationId: Option<string>,
    kind: PlanKind, payloadLabel: Option<string>, summary: string,
    expiresAt: int, status: PlanStatus)

  /** Who asks, and in which conversation. */
  datatype Caller = Caller(userId: string, schoolId: string, conversationId: Option<string>)

  const PLAN_TTL_MS := 900000

  datatype Refusal = NotFound | OtherSession | OtherConversation | AlreadyApplied | WasCancelled | WasExpired

  type PlanId = nat

  // ---------------------------------------------------------------- the gate for one plan

  predicate OtherConversationThan(p: Plan, c: Caller) {
    && TextOr(c.conversationId, "") != "" && TextOr(p.conversationId, "") != ""
    && TextOr(p.conversationId, "") != TextOr(c.conversationId, "")
  }

  /** `getActive`: None when it returns the plan, otherwise the error it throws. */
  function Gate(plans: seq<Plan>, id: PlanId, c: Caller, now: int): Option<Refusal> {
    if id >= |plans| then Some(NotFound)
    else
      var p := plans[id];
      if p.userId != c.userId || p.schoolId != c.schoolId then Some(OtherSession)
      else if OtherConversationThan(p, c) then Some(OtherConversation)
      else if p.status == APPLIED then Some(AlreadyApplied)
      else if p.status == CANCELLED then Some(WasCancelled)
      else if p.status != PROPOSED || p.expiresAt < now then Some(WasExpired)
      else None
  }

  function SetStatus(plans: seq<Plan>, id: PlanId, status: PlanStatus): (r: seq<Plan>)
    ensures |r| == |plans|
  {
    if id < |plans| then plans[id := plans[id].(status := status)] else plans
  }

  /** The table after `getActive`: an expired plan is marked. */
  function AfterGate(plans: seq<Plan>, id: PlanId, c: Caller, now: int): (r: seq<Plan>)
    ensures |r| == |plans|
  {
    if Gate(plans, id, c, now) == Some(WasExpired) then SetStatus(plans, id, EXPIRED) else plans
  }

  // ---------------------------------------------------------------- the bulk lister

  /** The query's condition; no kind means all kinds. */
  predicate Listed(p: Plan, c: Caller, kind: Option<PlanKind>) {
    && p.userId == c.userId && p.schoolId == c.schoolId && p.status == PROPOSED
    && (kind.Some? ==> p.kind == kind.value)
    && (TextOr(c.conversationId, "") != "" ==> p.conversationId == c.conversationId || p.conversationId == None)
  }

  /** A conversation id is never stored as empty text. */
  predicate Stored(p: Plan) { p.conversationId != Some("") }

  predicate AllStored(plans: seq<Plan>) { forall i :: 0 <= i < |plans| ==> Stored(plans[i]) }

  /** The first `n` plans with the expired ones among the listed marked. */
  function MarkExpired(plans: seq<Plan>, n: nat, c: Caller, kind: Option<PlanKind>, now: int): (r: seq<Plan>)
    requires n <= |plans|
    ensures |r| == |plans|
  {
    seq(|plans|, i requires 0 <= i < |plans| =>
      if i < n && Listed(plans[i], c, kind) && plans[i].expiresAt < now then plans[i].(status := EXPIRED) else plans[i])
  }

  /** The listed plans below `n` that have not expired, in order of creation. */
  function Active(plans: seq<Plan>, n: nat, c: Caller, kind: Option<PlanKind>, now: int): seq<PlanId>
    requires n <= |plans|
  {
    if n == 0 then []
    else
      Active(plans, n - 1, c, kind, now)
      + if Listed(plans[n - 1], c, kind) && plans[n - 1].expiresAt >= now then [n - 1] else []
  }

  lemma {:induction false} ActiveMember(plans: seq<Plan>, n: nat, c: Caller, kind: Option<PlanKind>, now: int, id: PlanId)
    requires n <= |plans|
    ensures id in Active(plans, n, c, kind, now) <==> id < n && Listed(plans[id], c, kind) && plans[id].expiresAt >= now
  {
    if n > 0 { ActiveMember(plans, n - 1, c, kind, now, id); }
  }

  lemma {:induction false} ActiveDistinct(plans: seq<Plan>, n: nat, c: Caller, kind: Option<PlanKind>, now: int)
    requires n <= |plans|
    ensures Distinct(Active(plans, n, c, kind, now))
    ensures forall i :: 0 <= i < |Active(plans, n, c, kind, now)| ==> Active(plans, n, c, kind, now)[i] < n
  {
    if n > 0 { ActiveDistinct(plans, n - 1, c, kind, now); }
  }

  /** The lister returns exactly the plans of the asked kind (any, if none is asked) that the gate accepts at that instant. */
  lemma ListerAgreesWithGate(plans: seq<Plan>, c: Caller, kind: Option<PlanKind>, now: int, id: PlanId)
    requires AllStored(plans)
    ensures id in Active(plans, |plans|, c, kind, now) <==>
              Gate(plans, id, c, now) == None && (kind.Some? ==> plans[id].kind == kind.value)
  {
    ActiveMember(plans, |plans|, c, kind, now, id);
    if id < |plans| { assert Stored(plans[id]); }
  }

  /** The plans that the lister marks expired are among those that the gate would mark, and are marked alike. */
  lemma ListerExpiresLikeGate(plans: seq<Plan>, c: Caller, kind: Option<PlanKind>, now: int, id: PlanId)
    requires AllStored(plans) && id < |plans|
    requires MarkExpired(plans, |plans|, c, kind, now)[id] != plans[id]
    ensures Gate(plans, id, c, now) == Some(WasExpired)
    ensures MarkExpired(plans, |plans|, c, kind, now)[id] == AfterGate(plans, id, c, now)[id]
  {
    assert Stored(plans[id]);
  }

  /** The plan is the caller's, and not of another conversation where both are known. */
  predicate Owns(c: Caller, p: Plan) {
    && p.userId == c.userId && p.schoolId == c.schoolId
    && (HasText(c.conversationId) && HasText(p.conversationId) ==> p.conversationId == c.conversationId)
  }

  /** What the gate answers, in terms of the plan. */
  lemma GateAnswers(plans: seq<Plan>, id: PlanId, c: Caller, now: int)
    ensures Gate(plans, id, c, now) == Some(NotFound) <==> id >= |plans|
    ensures id < |plans| ==>
              var p, answer := plans[id], Gate(plans, id, c, now);
              && (answer == Some(OtherSession) <==> p.userId != c.userId || p.schoolId != c.schoolId)
              && (answer == Some(OtherConversation) <==> p.userId == c.userId && p.schoolId == c.schoolId && !Owns(c, p))
              && (answer == Some(AlreadyApplied) <==> Owns(c, p) && p.status == APPLIED)
              && (answer == Some(WasCancelled) <==> Owns(c, p) && p.status == CANCELLED)
              && (answer == Some(WasExpired) <==> Owns(c, p) && (p.status == EXPIRED || (p.status == PROPOSED && p.expiresAt < now)))
              && (answer == None <==> Owns(c, p) && p.status == PROPOSED && now <= p.expiresAt)
  {
  }

  /** Listing marks exactly the expired plans that the caller proposed in this conversation or in none; the others stay. */
  lemma ListMarksExactly(plans: seq<Plan>, c: Caller, kind: Option<PlanKind>, now: int, id: PlanId)
    requires AllStored(plans) && id < |plans|
    ensures MarkExpired(plans, |plans|, c, kind, now)[id] ==
              if Owns(c, plans[id]) && plans[id].status == PROPOSED && plans[id].expiresAt < now
                 && (kind == None || kind == Some(plans[id].kind))
              then plans[id].(status := EXPIRED) else plans[id]
  {
    assert Stored(plans[id]);
  }

  // ---------------------------------------------------------------- selecting plans by class

  function LabelOf(p: Plan): Option<string> { Some(TextOr(p.payloadLabel, p.summary)) }

  predicate Hit(p: Plan, query: string) { ClassLabelMatches(LabelOf(p), Some(query)) }

  /** A query names a plan when its tokens begin those of the plan's class, or of its summary if it has no class. */
  lemma HitIsTokenPrefix(p: Plan, query: string)
    ensures var text := if HasText(p.payloadLabel) then p.payloadLabel.value else p.summary;
            var (tokens, asked) := (Scan(Lower(text)), Scan(Lower(query)));
            Hit(p, query) <==> asked != [] && asked <= tokens
  {
    hide TokenizeLowered, ClassLabelMatches, Scan, Lower;
    var text := if HasText(p.payloadLabel) then p.payloadLabel.value else p.summary;
    assert LabelOf(p) == Some(text);
    MatchIsTokenPrefix(Some(text), Some(query));
    TokenizeIsScan(Lower(text));
    TokenizeIsScan(Lower(query));
  }

  /** White space as `trim` sees it. */
  predicate IsSpace(c: char) {
    var n := c as int;
    || 9 <= n <= 13 || n == 0x20 || n == 0xA0 || n == 0x1680 || 0x2000 <= n <= 0x200A
    || n == 0x2028 || n == 0x2029 || n == 0x202F || n == 0x205F || n == 0x3000 || n == 0xFEFF
  }

  function Trim(s: string): string {
    if s == "" then ""
    else if IsSpace(s[0]) then Trim(s[1..])
    else if IsSpace(s[|s| - 1]) then Trim(s[..|s| - 1])
    else s
  }

  /** The queries that have text in them, trimmed. */
  function Worded(queries: seq<string>): seq<string> {
    if queries == [] then []
    else
      var last := Trim(queries[|queries| - 1]);
      Worded(queries[..|queries| - 1]) + if last != "" then [last] else []
  }

  ghost predicate AllSpace(s: string) { forall i :: 0 <= i < |s| ==> IsSpace(s[i]) }

  ghost predicate Stripped(s: string, before: string, core: string, after: string) {
    && s == before + core + after
    && AllSpace(before) && AllSpace(after)
    && (core != "" ==> !IsSpace(core[0]) && !IsSpace(core[|core| - 1]))
  }

  lemma StrippedFront(c: char, s: string, before: string, core: string, after: string)
    requires Stripped(s, before, core, after) && IsSpace(c)
    ensures Stripped([c] + s, [c] + before, core, after)
  {
    hide IsSpace;
    assert [c] + s == [c] + before + core + after;
  }

  lemma StrippedBack(s: string, c: char, before: string, core: string, after: string)
    requires Stripped(s, before, core, after) && IsSpace(c)
    ensures Stripped(s + [c], before, core, after + [c])
  {
    hide IsSpace;
    assert s + [c] == before + core + (after + [c]);
  }

  lemma StrippedCore(s: string)
    requires s != "" ==> !IsSpace(s[0]) && !IsSpace(s[|s| - 1])
    ensures Stripped(s, "", s, "")
  {
    assert s == "" + s + "";
  }

  /** Trimming takes the white space at both ends, all of it and nothing else. */
  lemma {:induction false} TrimTakesEnds(s: string) returns (before: string, after: string)
    ensures Stripped(s, before, Trim(s), after)
  {
    hide IsSpace, Stripped;
    before, after := "", "";
    if s != "" && IsSpace(s[0]) {
      before, after := TrimTakesEnds(s[1..]);
      StrippedFront(s[0], s[1..], before, Trim(s[1..]), after);
      before := [s[0]] + before;
      assert s == [s[0]] + s[1..];
    } else if s != "" && IsSpace(s[|s| - 1]) {
      before, after := TrimTakesEnds(s[..|s| - 1]);
      StrippedBack(s[..|s| - 1], s[|s| - 1], before, Trim(s[..|s| - 1]), after);
      after := after + [s[|s| - 1]];
      assert s == s[..|s| - 1] + [s[|s| - 1]];
    } else {
      StrippedCore(s);
    }
  }

  function TrimAll(queries: seq<string>): seq<string> {
    seq(|queries|, i requires 0 <= i < |queries| => Trim(queries[i]))
  }

  /** The queries asked are the trimmed ones with text in them, in their order. */
  lemma {:induction false} WordedInOrder(queries: seq<string>)
    ensures Worded(queries) == Filter(TrimAll(queries), text => text != "")
  {
    if queries != [] {
      WordedInOrder(queries[..|queries| - 1]);
      assert TrimAll(queries)[..|queries| - 1] == TrimAll(queries[..|queries| - 1]);
    }
  }

  ghost predicate HitsAny(plans: seq<Plan>, ids: seq<PlanId>, query: string) {
    exists i :: 0 <= i < |ids| && ids[i] < |plans| && Hit(plans[ids[i]], query)
  }

  /** The plans already matched, and after them the hits of one more query that were not. */
  function WithHits(matched: seq<PlanId>, plans: seq<Plan>, ids: seq<PlanId>, query: string): seq<PlanId> {
    if ids == [] then matched
    else
      var before, id := WithHits(matched, plans, ids[..|ids| - 1], query), ids[|ids| - 1];
      if id < |plans| && Hit(plans[id], query) && id !in before then before + [id] else before
  }

  function Matched(plans: seq<Plan>, ids: seq<PlanId>, queries: seq<string>): seq<PlanId> {
    if queries == [] then []
    else WithHits(Matched(plans, ids, queries[..|queries| - 1]), plans, ids, queries[|queries| - 1])
  }

  /** The queries that no plan answers, in order. */
  ghost function Unmatched(plans: seq<Plan>, ids: seq<PlanId>, queries: seq<string>): seq<string> {
    if queries == [] then []
    else
      var last := queries[|queries| - 1];
      Unmatched(plans, ids, queries[..|queries| - 1]) + if HitsAny(plans, ids, last) then [] else [last]
  }

  lemma {:induction false} WithHitsExactly(matched: seq<PlanId>, plans: seq<Plan>, ids: seq<PlanId>, query: string, id: PlanId)
    requires Distinct(matched)
    ensures Distinct(WithHits(matched, plans, ids, query))
    ensures id in WithHits(matched, plans, ids, query) <==>
              id in matched || (id in ids && id < |plans| && Hit(plans[id], query))
  {
    hide Hit;
    if ids != [] {
      var init, last := ids[..|ids| - 1], ids[|ids| - 1];
      WithHitsExactly(matched, plans, init, query, id);
      assert id in ids <==> id in init || id == last;
    }
  }

  /** The plans that one more query adds keep the order in which they are listed. */
  lemma {:induction false} HitsInOrder(matched: seq<PlanId>, plans: seq<Plan>, ids: seq<PlanId>, query: string)
    requires Distinct(ids)
    ensures WithHits(matched, plans, ids, query) ==
              matched + Filter(ids, (id: PlanId) => id !in matched && id < |plans| && Hit(plans[id], query))
  {
    hide Hit;
    if ids != [] {
      var init, id := ids[..|ids| - 1], ids[|ids| - 1];
      HitsInOrder(matched, plans, init, query);
      var found := WithHits(matched, plans, init, query);
      WithHitsMember(matched, plans, init, query, id);
      assert id !in init;
      assert id in found <==> id in matched;
    } else {
      assert matched + [] == matched;
    }
  }

  lemma {:induction false} WithHitsMember(matched: seq<PlanId>, plans: seq<Plan>, ids: seq<PlanId>, query: string, id: PlanId)
    ensures id in WithHits(matched, plans, ids, query) <==>
              id in matched || (id in ids && id < |plans| && Hit(plans[id], query))
  {
    hide Hit;
    if ids != [] {
      var init, last := ids[..|ids| - 1], ids[|ids| - 1];
      WithHitsMember(matched, plans, init, query, id);
      assert id in ids <==> id in init || id == last;
    }
  }

  ghost predicate Answers(plans: seq<Plan>, id: PlanId, queries: seq<string>) {
    id < |plans| && exists q :: 0 <= q < |queries| && Hit(plans[id], queries[q])
  }

  /** No plan is matched twice, and the matched plans are the listed ones that some query names. */
  lemma {:induction false} MatchedExactly(plans: seq<Plan>, ids: seq<PlanId>, queries: seq<string>, id: PlanId)
    ensures Distinct(Matched(plans, ids, queries))
    ensures id in Matched(plans, ids, queries) <==> id in ids && Answers(plans, id, queries)
  {
    hide Hit;
    if queries != [] {
      var init, last := queries[..|queries| - 1], queries[|queries| - 1];
      MatchedExactly(plans, ids, init, id);
      WithHitsExactly(Matched(plans, ids, init), plans, ids, last, id);
      if Answers(plans, id, queries) {
        var q :| 0 <= q < |queries| && Hit(plans[id], queries[q]);
        assert q < |init| ==> init[q] == queries[q];
      }
      if Answers(plans, id, init) {
        var q :| 0 <= q < |init| && Hit(plans[id], init[q]);
        assert queries[q] == init[q];
      }
    }
  }

  /** Every hit of every query, each plan once. */
  method MatchByClassQueries(plans: seq<Plan>, ids: seq<PlanId>, classQueries: seq<string>)
    returns (matched: seq<PlanId>, unmatched: seq<string>)
    requires forall i :: 0 <= i < |ids| ==> ids[i] < |plans|
    ensures matched == Matched(plans, ids, Worded(classQueries))
    ensures unmatched == Unmatched(plans, ids, Worded(classQueries))
  {
    hide Hit;
    var queries: seq<string> := Worded(classQueries);
    matched, unmatched := [], [];
    for q := 0 to |queries|
      invariant matched == Matched(plans, ids, queries[..q])
      invariant unmatched == Unmatched(plans, ids, queries[..q])
    {
      var query := queries[q];
      var hit, before := false, matched;
      for i := 0 to |ids|
        invariant matched == WithHits(before, plans, ids[..i], query)
        invariant hit <==> exists j :: 0 <= j < i && Hit(plans[ids[j]], query)
      {
        assert ids[..i + 1][..i] == ids[..i];
        if Hit(plans[ids[i]], query) {
          hit := true;
          if ids[i] !in matched { matched := matched + [ids[i]]; }
        }
      }
      assert ids[..|ids|] == ids;
      assert queries[..q + 1][..q] == queries[..q];
      assert hit <==> HitsAny(plans, ids, query);
      if !hit { unmatched := unmatched + [query]; }
    }
    assert queries[..|queries|] == queries;
  }

  // ---------------------------------------------------------------- transitions

  /** The plans, and the external writes that applying them caused, in order. */
  datatype State = State(plans: seq<Plan>, effects: seq<PlanId>)

  function Proposed(st: State, c: Caller, kind: PlanKind, payloadLabel: Option<string>, summary: string, now: int): State {
    st.(plans := st.plans + [Plan(c.userId, c.schoolId, if TextOr(c.conversationId, "") != "" then c.conversationId else None,
                                  kind, payloadLabel, summary, now + PLAN_TTL_MS, PROPOSED)])
  }

  /** A plan that the gate accepts is written outside and then marked, if the write succeeds. */
  function AppliedTo(st: State, id: PlanId, c: Caller, now: int, written: bool): State {
    if Gate(st.plans, id, c, now).Some? then st.(plans := AfterGate(st.plans, id, c, now))
    else if !written then st
    else State(SetStatus(st.plans, id, APPLIED), st.effects + [id])
  }

  /** Cancelling does not look at the conversation. */
  function CancelledIn(st: State, id: PlanId, c: Caller, now: int): State {
    var anywhere := c.(conversationId := None);
    if Gate(st.plans, id, anywhere, now).Some? then st.(plans := AfterGate(st.plans, id, anywhere, now))
    else st.(plans := SetStatus(st.plans, id, CANCELLED))
  }

  function ListedIn(st: State, c: Caller, kind: Option<PlanKind>, now: int): State {
    st.(plans := MarkExpired(st.plans, |st.plans|, c, kind, now))
  }

  /** Plans are never dropped, never change but for their status, and a status other than PROPOSED is final. */
  ghost predicate Evolves(st: State, st': State) {
    && |st.plans| <= |st'.plans| && st.effects <= st'.effects
    && forall id :: 0 <= id < |st.plans| ==>
         && st'.plans[id] == st.plans[id].(status := st'.plans[id].status)
         && (st.plans[id].status != PROPOSED ==> st'.plans[id].status == st.plans[id].status)
  }

  /** Each plan was written at most once, and the written ones are exactly the APPLIED ones. */
  ghost predicate Inv(st: State) {
    && AllStored(st.plans)
    && Distinct(st.effects)
    && (forall i :: 0 <= i < |st.effects| ==> st.effects[i] < |st.plans|)
    && (forall id: PlanId :: id < |st.plans| ==> (id in st.effects <==> st.plans[id].status == APPLIED))
  }

  lemma EvolvesTransitive(a: State, b: State, c: State)
    requires Evolves(a, b) && Evolves(b, c)
    ensures Evolves(a, c)
  {
    forall id | 0 <= id < |a.plans| ensures c.plans[id] == a.plans[id].(status := c.plans[id].status) {
      assert b.plans[id] == a.plans[id].(status := b.plans[id].status);
    }
  }

  lemma AppliedKeeps(st: State, id: PlanId, c: Caller, now: int, written: bool)
    requires Inv(st)
    ensures Inv(AppliedTo(st, id, c, now, written)) && Evolves(st, AppliedTo(st, id, c, now, written))
  {
    var st' := AppliedTo(st, id, c, now, written);
    forall j: PlanId | j < |st'.plans| ensures j in st'.effects <==> st'.plans[j].status == APPLIED {
      assert j in st.effects <==> st.plans[j].status == APPLIED;
    }
  }

  lemma CancelledKeeps(st: State, id: PlanId, c: Caller, now: int)
    requires Inv(st)
    ensures Inv(CancelledIn(st, id, c, now)) && Evolves(st, CancelledIn(st, id, c, now))
  {
  }

  lemma ListedKeeps(st: State, c: Caller, kind: Option<PlanKind>, now: int)
    requires Inv(st)
    ensures Inv(ListedIn(st, c, kind, now)) && Evolves(st, ListedIn(st, c, kind, now))
  {
  }

  lemma ProposedKeeps(st: State, c: Caller, kind: PlanKind, payloadLabel: Option<string>, summary: string, now: int)
    requires Inv(st)
    ensures Inv(Proposed(st, c, kind, payloadLabel, summary, now))
    ensures Evolves(st, Proposed(st, c, kind, payloadLabel, summary, now))
  {
    var st' := Proposed(st, c, kind, payloadLabel, summary, now);
    forall i | 0 <= i < |st.effects| ensures st.effects[i] != |st.plans| { }
    assert forall i :: 0 <= i < |st.plans| ==> Stored(st.plans[i]);
  }

  // ---------------------------------------------------------------- runs

  datatype Event =
    | Propose(caller: Caller, kind: PlanKind, payloadLabel: Option<string>, summary: string, now: int)
    | Apply(id: PlanId, caller: Caller, now: int, written: bool)
    | Cancel(id: PlanId, caller: Caller, now: int)
    | List(caller: Caller, listKind: Option<PlanKind>, now: int)

  function Step(st: State, ev: Event): State {
    match ev
    case Propose(c, kind, name, summary, now) => Proposed(st, c, kind, name, summary, now)
    case Apply(id, c, now, written) => AppliedTo(st, id, c, now, written)
    case Cancel(id, c, now) => CancelledIn(st, id, c, now)
    case List(c, kind, now) => ListedIn(st, c, kind, now)
  }

  function Run(st: State, events: seq<Event>): State {
    if events == [] then st else Step(Run(st, events[..|events| - 1]), events[|events| - 1])
  }

  lemma StepKeeps(st: State, ev: Event)
    requires Inv(st)
    ensures Inv(Step(st, ev)) && Evolves(st, Step(st, ev))
  {
    hide Inv, Evolves;
    match ev
    case Propose(c, kind, name, summary, now) => ProposedKeeps(st, c, kind, name, summary, now);
    case Apply(id, c, now, written) => AppliedKeeps(st, id, c, now, written);
    case Cancel(id, c, now) => CancelledKeeps(st, id, c, now);
    case List(c, kind, now) => ListedKeeps(st, c, kind, now);
  }

  /**
   Over every run APPLIED, CANCELLED and EXPIRED are final, no plan is written twice, and the plans written are
   exactly the APPLIED ones.
   */
  lemma {:induction false} RunKeeps(st: State, events: seq<Event>)
    requires Inv(st)
    ensures Inv(Run(st, events)) && Evolves(st, Run(st, events))
  {
    if events != [] {
      hide Inv, Evolves;
      var init := events[..|events| - 1];
      RunKeeps(st, init);
      StepKeeps(Run(st, init), events[|events| - 1]);
      EvolvesTransitive(st, Run(st, init), Run(st, events));
    } else {
      assert Evolves(st, st);
    }
  }

  /** A plan lives for fifteen minutes: untouched, its owner can apply it until then and not after. */
  lemma ProposedLives(st: State, c: Caller, kind: PlanKind, payloadLabel: Option<string>, summary: string, now: int, later: int)
    ensures var st' := Step(st, Propose(c, kind, payloadLabel, summary, now));
            && |st'.plans| == |st.plans| + 1 && st'.plans[..|st.plans|] == st.plans && st'.effects == st.effects
            && (Gate(st'.plans, |st.plans|, c, later) == None <==> later <= now + 900000)
            && (later > now + 900000 ==> Gate(st'.plans, |st.plans|, c, later) == Some(WasExpired))
            && st'.plans[|st.plans|].kind == kind && st'.plans[|st.plans|].payloadLabel == payloadLabel
            && st'.plans[|st.plans|].summary == summary
  {
  }

  /** Applying an accepted plan whose write succeeds marks it and records the write; a failed write changes nothing. */
  lemma AppliedMarks(st: State, id: PlanId, c: Caller, now: int, written: bool)
    requires Gate(st.plans, id, c, now) == None
    ensures var st' := Step(st, Apply(id, c, now, written));
            && (written ==> st'.plans == st.plans[id := st.plans[id].(status := APPLIED)] && st'.effects == st.effects + [id])
            && (!written ==> st' == st)
  {
  }

  /** A refused call writes nothing, and changes a plan only by marking it expired. */
  lemma RefusedChangesNothing(st: State, id: PlanId, c: Caller, now: int, written: bool)
    requires Gate(st.plans, id, c, now).Some?
    ensures var st' := Step(st, Apply(id, c, now, written));
            && st'.effects == st.effects
            && st'.plans == if Gate(st.plans, id, c, now) == Some(WasExpired) then st.plans[id := st.plans[id].(status := EXPIRED)]
                            else st.plans
  {
  }

  /** The caller, looked at in no particular conversation. */
  function Anywhere(c: Caller): Caller { Caller(c.userId, c.schoolId, None) }

  /** Cancelling a plan that its owner may use marks it, and nothing else. */
  lemma CancelMarks(st: State, id: PlanId, c: Caller, now: int)
    requires Gate(st.plans, id, Anywhere(c), now) == None
    ensures Step(st, Cancel(id, c, now)) == st.(plans := st.plans[id := st.plans[id].(status := CANCELLED)])
  {
  }

  /** Whatever happens afterwards a cancelled plan is never written, and every use by its owner is told that it was cancelled. */
  lemma CancelledForGood(st: State, id: PlanId, c: Caller, now: int, events: seq<Event>, later: int)
    requires Inv(st) && Gate(st.plans, id, Anywhere(c), now) == None
    ensures var after := Run(Step(st, Cancel(id, c, now)), events);
            && id < |after.plans| && after.plans[id].status == CANCELLED && id !in after.effects
            && Gate(after.plans, id, Anywhere(c), later) == Some(WasCancelled)
            && (Owns(c, st.plans[id]) ==> Gate(after.plans, id, c, later) == Some(WasCancelled))
  {
    hide Step, Run, Gate;
    var st1 := Step(st, Cancel(id, c, now));
    GateAnswers(st.plans, id, Anywhere(c), now);
    CancelMarks(st, id, c, now);
    StepKeeps(st, Cancel(id, c, now));
    RunKeeps(st1, events);
    var after := Run(st1, events);
    assert st1.plans[id].status == CANCELLED;
    assert after.plans[id] == st1.plans[id].(status := after.plans[id].status);
    GateAnswers(after.plans, id, Anywhere(c), later);
    GateAnswers(after.plans, id, c, later);
  }

  /** Whatever happens afterwards an applied plan is written once and for all. */
  lemma AppliedForGood(st: State, id: PlanId, c: Caller, now: int, events: seq<Event>, later: int)
    requires Inv(st) && Gate(st.plans, id, c, now) == None
    ensures var after := Run(Step(st, Apply(id, c, now, true)), events);
            && id < |after.plans| && id in after.effects && Distinct(after.effects)
            && Gate(after.plans, id, c, later) == Some(AlreadyApplied)
  {
    hide Step, Run, Gate;
    var st1 := Step(st, Apply(id, c, now, true));
    GateAnswers(st.plans, id, c, now);
    AppliedMarks(st, id, c, now, true);
    StepKeeps(st, Apply(id, c, now, true));
    RunKeeps(st1, events);
    var after := Run(st1, events);
    assert st1.plans[id].status == APPLIED;
    assert after.plans[id] == st1.plans[id].(status := after.plans[id].status);
    GateAnswers(after.plans, id, c, later);
  }

  lemma {:induction false} RunConcat(st: State, a: seq<Event>, b: seq<Event>)
    ensures Run(st, a + b) == Run(Run(st, a), b)
  {
    if b == [] {
      assert a + b == a;
    } else {
      RunConcat(st, a, b[..|b| - 1]);
      assert (a + b)[..|a + b| - 1] == a + b[..|b| - 1];
    }
  }

  // ---------------------------------------------------------------- applying many plans

  /** One bulk request: when each plan is reached, whether its writer permits it, and whether its write succeeds. */
  datatype Bulk = Bulk(at: PlanId -> int, permitted: PlanId -> bool, succeeds: PlanId -> bool, hasUser: bool)

  predicate WriteSucceeds(p: Plan, id: PlanId, b: Bulk) { (p.kind == SCHEME ==> b.hasUser) && b.succeeds(id) }

  /** The steps of a bulk request over the first `n` selected plans; one that is not permitted is not attempted. */
  ghost function BulkEvents(plans: seq<Plan>, selected: seq<PlanId>, n: nat, c: Caller, b: Bulk): seq<Event>
    requires n <= |selected| && forall i :: 0 <= i < |selected| ==> selected[i] < |plans|
  {
    if n == 0 then []
    else
      var id := selected[n - 1];
      BulkEvents(plans, selected, n - 1, c, b)
      + if b.permitted(id) then [Apply(id, c, b.at(id), WriteSucceeds(plans[id], id, b))] else []
  }

  /** The outcome for one selected plan depends on that plan alone. */
  predicate Succeeds(plans: seq<Plan>, id: PlanId, c: Caller, b: Bulk)
    requires id < |plans|
  {
    b.permitted(id) && Gate(plans, id, c, b.at(id)) == None && WriteSucceeds(plans[id], id, b)
  }

  ghost function Bulked(st: State, selected: seq<PlanId>, n: nat, c: Caller, b: Bulk): State
    requires n <= |selected| && forall i :: 0 <= i < |selected| ==> selected[i] < |st.plans|
  {
    Run(st, BulkEvents(st.plans, selected, n, c, b))
  }

  lemma BulkedNext(st: State, selected: seq<PlanId>, n: nat, c: Caller, b: Bulk)
    requires n < |selected| && forall i :: 0 <= i < |selected| ==> selected[i] < |st.plans|
    ensures var id := selected[n];
            Bulked(st, selected, n + 1, c, b) ==
              if b.permitted(id) then
                AppliedTo(Bulked(st, selected, n, c, b), id, c, b.at(id), WriteSucceeds(st.plans[id], id, b))
              else Bulked(st, selected, n, c, b)
  {
    var id, before := selected[n], BulkEvents(st.plans, selected, n, c, b);
    if b.permitted(id) {
      var ev := Apply(id, c, b.at(id), WriteSucceeds(st.plans[id], id, b));
      assert (before + [ev])[..|before|] == before;
      assert Step(Run(st, before), ev) == AppliedTo(Run(st, before), id, c, b.at(id), WriteSucceeds(st.plans[id], id, b));
    } else {
      assert before + [] == before;
    }
  }

  /** A plan not yet reached is as it was. */
  lemma {:induction false} NotReached(st: State, selected: seq<PlanId>, n: nat, c: Caller, b: Bulk, id: PlanId)
    requires n <= |selected| && forall i :: 0 <= i < |selected| ==> selected[i] < |st.plans|
    requires id < |st.plans| && forall i :: 0 <= i < n ==> selected[i] != id
    ensures |Bulked(st, selected, n, c, b).plans| == |st.plans| && Bulked(st, selected, n, c, b).plans[id] == st.plans[id]
  {
    hide *;
    if n == 0 {
      NoneBulked(st, selected, c, b);
    } else {
      NotReached(st, selected, n - 1, c, b, id);
      BulkedNext(st, selected, n - 1, c, b);
      var last := selected[n - 1];
      OthersUntouched(Bulked(st, selected, n - 1, c, b), last, c, b.at(last), WriteSucceeds(st.plans[last], last, b), id);
    }
  }

  lemma NoneBulked(st: State, selected: seq<PlanId>, c: Caller, b: Bulk)
    requires forall i :: 0 <= i < |selected| ==> selected[i] < |st.plans|
    ensures Bulked(st, selected, 0, c, b) == st
  {
  }

  /** Applying a plan changes no other plan. */
  lemma OthersUntouched(st: State, id: PlanId, c: Caller, now: int, written: bool, other: PlanId)
    requires other < |st.plans| && other != id
    ensures var after := AppliedTo(st, id, c, now, written); |after.plans| == |st.plans| && after.plans[other] == st.plans[other]
  {
    hide Gate;
  }

  lemma GateDependsOnPlan(plans: seq<Plan>, plans': seq<Plan>, id: PlanId, c: Caller, now: int)
    requires id < |plans| == |plans'| && plans[id] == plans'[id]
    ensures Gate(plans, id, c, now) == Gate(plans', id, c, now)
  {
  }

  lemma ActiveInRange(plans: seq<Plan>, c: Caller, kind: Option<PlanKind>, now: int)
    ensures var pending := Active(plans, |plans|, c, kind, now);
            forall i :: 0 <= i < |pending| ==> pending[i] < |plans|
  {
    ActiveDistinct(plans, |plans|, c, kind, now);
  }

  /** The selected plans that are applied, in order. */
  function Succeeded(plans: seq<Plan>, selected: seq<PlanId>, c: Caller, b: Bulk): seq<PlanId>
    requires forall i :: 0 <= i < |selected| ==> selected[i] < |plans|
  {
    if selected == [] then []
    else
      var id := selected[|selected| - 1];
      Succeeded(plans, selected[..|selected| - 1], c, b) + if Succeeds(plans, id, c, b) then [id] else []
  }

  datatype Failure = NoClassNamed | NoPlanMatches(query: string) | NotApplied(id: PlanId)

  function Misses(queries: seq<string>): (r: seq<Failure>)
    ensures |r| == |queries|
  {
    seq(|queries|, i requires 0 <= i < |queries| => NoPlanMatches(queries[i]))
  }

  /** The selected plans that are not applied, in order. */
  function Refused(plans: seq<Plan>, selected: seq<PlanId>, c: Caller, b: Bulk): seq<Failure>
    requires forall i :: 0 <= i < |selected| ==> selected[i] < |plans|
  {
    if selected == [] then []
    else
      var id := selected[|selected| - 1];
      Refused(plans, selected[..|selected| - 1], c, b) + if Succeeds(plans, id, c, b) then [] else [NotApplied(id)]
  }

  lemma {:induction false} SucceededExactly(plans: seq<Plan>, selected: seq<PlanId>, c: Caller, b: Bulk, id: PlanId)
    requires forall i :: 0 <= i < |selected| ==> selected[i] < |plans|
    ensures id in Succeeded(plans, selected, c, b) <==> id in selected && Succeeds(plans, id, c, b)
    ensures NotApplied(id) in Refused(plans, selected, c, b) <==> id in selected && !Succeeds(plans, id, c, b)
    ensures |Succeeded(plans, selected, c, b)| + |Refused(plans, selected, c, b)| == |selected|
  {
    hide Succeeds;
    if selected != [] {
      var init, last := selected[..|selected| - 1], selected[|selected| - 1];
      SucceededExactly(plans, init, c, b, id);
      assert id in selected <==> id in init || id == last;
    }
  }

  lemma BulkNone(listed: State, selected: seq<PlanId>, c: Caller, b: Bulk)
    requires forall i :: 0 <= i < |selected| ==> selected[i] < |listed.plans|
    ensures Bulked(listed, selected, 0, c, b) == listed
    ensures Succeeded(listed.plans, selected[..0], c, b) == [] && Refused(listed.plans, selected[..0], c, b) == []
  {
  }

  /** One more selected plan in the three folds at once. */
  lemma BulkNext(listed: State, selected: seq<PlanId>, n: nat, c: Caller, b: Bulk)
    requires n < |selected| && Distinct(selected) && forall i :: 0 <= i < |selected| ==> selected[i] < |listed.plans|
    ensures var id, sofar := selected[n], Bulked(listed, selected, n, c, b);
            var ok := Succeeds(listed.plans, id, c, b);
            && id < |sofar.plans| && sofar.plans[id] == listed.plans[id]
            && Gate(sofar.plans, id, c, b.at(id)) == Gate(listed.plans, id, c, b.at(id))
            && Bulked(listed, selected, n + 1, c, b) ==
                 (if b.permitted(id) then AppliedTo(sofar, id, c, b.at(id), WriteSucceeds(listed.plans[id], id, b)) else sofar)
            && Succeeded(listed.plans, selected[..n + 1], c, b) ==
                 Succeeded(listed.plans, selected[..n], c, b) + (if ok then [id] else [])
            && Refused(listed.plans, selected[..n + 1], c, b) ==
                 Refused(listed.plans, selected[..n], c, b) + (if ok then [] else [NotApplied(id)])
  {
    hide Gate, AppliedTo, Bulked;
    var id := selected[n];
    BulkedNext(listed, selected, n, c, b);
    NotReached(listed, selected, n, c, b, id);
    GateDependsOnPlan(listed.plans, Bulked(listed, selected, n, c, b).plans, id, c, b.at(id));
    assert selected[..n + 1][..n] == selected[..n];
  }

  /**
   Applying a plan never changes what happens to the next: the writes that a bulk request makes are those of the
   selected plans that succeed on their own.
   */
  lemma {:induction false} BulkedWrites(st: State, selected: seq<PlanId>, n: nat, c: Caller, b: Bulk)
    requires n <= |selected| && Distinct(selected) && forall i :: 0 <= i < |selected| ==> selected[i] < |st.plans|
    ensures Bulked(st, selected, n, c, b).effects == st.effects + Succeeded(st.plans, selected[..n], c, b)
  {
    hide *;
    if n == 0 {
      BulkNone(st, selected, c, b);
      assert st.effects + [] == st.effects;
    } else {
      var id, sofar := selected[n - 1], Bulked(st, selected, n - 1, c, b);
      BulkedWrites(st, selected, n - 1, c, b);
      BulkNext(st, selected, n - 1, c, b);
      BulkWrite(st, sofar, id, c, b);
      assert st.effects + Succeeded(st.plans, selected[..n - 1], c, b) + [] == st.effects + Succeeded(st.plans, selected[..n - 1], c, b);
    }
  }

  lemma BulkWrite(st: State, sofar: State, id: PlanId, c: Caller, b: Bulk)
    requires id < |st.plans| && id < |sofar.plans| && Gate(sofar.plans, id, c, b.at(id)) == Gate(st.plans, id, c, b.at(id))
    ensures var after := if b.permitted(id) then AppliedTo(sofar, id, c, b.at(id), WriteSucceeds(st.plans[id], id, b)) else sofar;
            after.effects == sofar.effects + if Succeeds(st.plans, id, c, b) then [id] else []
  {
    hide Gate, WriteSucceeds;
  }

  /** The plans that one bulk request selects among the pending ones; without a name it takes all. */
  function Selected(plans: seq<Plan>, pending: seq<PlanId>, named: bool, classQueries: seq<string>): seq<PlanId> {
    if named then Matched(plans, pending, Worded(classQueries)) else pending
  }

  ghost function Missed(plans: seq<Plan>, pending: seq<PlanId>, named: bool, classQueries: seq<string>): seq<string> {
    if named then Unmatched(plans, pending, Worded(classQueries)) else []
  }

  /**
   Selected are the caller's plans that the gate accepts, of the kind asked for: all of them, or those that some query
   with text in it names. Missed are the queries that name none.
   */
  lemma SelectionIs(plans: seq<Plan>, c: Caller, kind: Option<PlanKind>, now: int, named: bool, classQueries: seq<string>, id: PlanId)
    requires AllStored(plans)
    ensures var pending := Active(plans, |plans|, c, kind, now);
            && (id in Selected(plans, pending, named, classQueries) <==>
                  && Gate(plans, id, c, now) == None && (kind.Some? ==> plans[id].kind == kind.value)
                  && (named ==> Answers(plans, id, Worded(classQueries))))
            && (!named ==> Missed(plans, pending, named, classQueries) == [])
            && (named ==> Missed(plans, pending, named, classQueries) ==
                            Filter(Worded(classQueries), query => !HitsAny(plans, pending, query)))
  {
    hide Gate, Hit, Listed;
    var pending := Active(plans, |plans|, c, kind, now);
    ListerAgreesWithGate(plans, c, kind, now, id);
    MatchedExactly(plans, pending, Worded(classQueries), id);
    UnmatchedInOrder(plans, pending, Worded(classQueries));
  }

  lemma {:induction false} UnmatchedInOrder(plans: seq<Plan>, ids: seq<PlanId>, queries: seq<string>)
    ensures Unmatched(plans, ids, queries) == Filter(queries, query => !HitsAny(plans, ids, query))
  {
    hide HitsAny;
    if queries != [] { UnmatchedInOrder(plans, ids, queries[..|queries| - 1]); }
  }

  lemma SelectedOnce(plans: seq<Plan>, c: Caller, kind: Option<PlanKind>, now: int, named: bool, classQueries: seq<string>)
    ensures var pending := Active(plans, |plans|, c, kind, now);
            var selected := Selected(plans, pending, named, classQueries);
            && Distinct(selected)
            && forall i :: 0 <= i < |selected| ==> selected[i] < |plans| && selected[i] in pending
  {
    var pending := Active(plans, |plans|, c, kind, now);
    var selected := Selected(plans, pending, named, classQueries);
    ActiveDistinct(plans, |plans|, c, kind, now);
    if named { MatchedExactly(plans, pending, Worded(classQueries), 0); }
    forall i | 0 <= i < |selected| ensures selected[i] < |plans| && selected[i] in pending {
      var id := selected[i];
      assert id in selected;
      if named { MatchedExactly(plans, pending, Worded(classQueries), id); }
      ActiveMember(plans, |plans|, c, kind, now, id);
    }
  }

  /**
   A bulk request selects no plan twice. Each selected plan is applied or reported, never both and never neither; it is
   applied exactly when its writer permits it, its turn comes before it expires and its write succeeds. What is written
   outside is exactly what is reported as applied, and the plans stay in order with their writes.
   */
  lemma BulkAppliesSelection(st: State, c: Caller, kind: Option<PlanKind>, now: int,
                             named: bool, classQueries: seq<string>, b: Bulk)
    requires Inv(st)
    ensures var pending := Active(st.plans, |st.plans|, c, kind, now);
            var selected := Selected(st.plans, pending, named, classQueries);
            var listed := ListedIn(st, c, kind, now);
            && Distinct(selected)
            && (forall i :: 0 <= i < |selected| ==> selected[i] < |st.plans|)
            && (forall id: PlanId :: id in selected ==>
                  (id in Succeeded(listed.plans, selected, c, b) <==>
                    && b.permitted(id) && b.at(id) <= st.plans[id].expiresAt
                    && (st.plans[id].kind == SCHEME ==> b.hasUser) && b.succeeds(id)))
            && |Succeeded(listed.plans, selected, c, b)| + |Refused(listed.plans, selected, c, b)| == |selected|
            && Bulked(listed, selected, |selected|, c, b).effects == st.effects + Succeeded(listed.plans, selected, c, b)
            && Inv(Bulked(listed, selected, |selected|, c, b)) && Evolves(st, Bulked(listed, selected, |selected|, c, b))
  {
    var pending := Active(st.plans, |st.plans|, c, kind, now);
    var selected := Selected(st.plans, pending, named, classQueries);
    var listed := ListedIn(st, c, kind, now);
    SelectedOnce(st.plans, c, kind, now, named, classQueries);
    ListedKeeps(st, c, kind, now);
    var events := BulkEvents(listed.plans, selected, |selected|, c, b);
    RunKeeps(listed, events);
    EvolvesTransitive(st, listed, Run(listed, events));
    BulkedWrites(listed, selected, |selected|, c, b);
    assert selected[..|selected|] == selected;
    SucceededExactly(listed.plans, selected, c, b, 0);
    forall id: PlanId | id in selected
      ensures id in Succeeded(listed.plans, selected, c, b) <==>
                b.permitted(id) && b.at(id) <= st.plans[id].expiresAt && WriteSucceeds(st.plans[id], id, b)
    {
      PendingSucceeds(st, c, kind, now, selected, b, id);
    }
  }

  lemma PendingGate(plans: seq<Plan>, c: Caller, kind: Option<PlanKind>, id: PlanId, now: int)
    requires id < |plans| && Listed(plans[id], c, kind) && Stored(plans[id])
    ensures Gate(plans, id, c, now) == None <==> now <= plans[id].expiresAt
  {
  }

  lemma PendingSucceeds(st: State, c: Caller, kind: Option<PlanKind>, now: int, selected: seq<PlanId>, b: Bulk, id: PlanId)
    requires AllStored(st.plans)
    requires id in selected && id in Active(st.plans, |st.plans|, c, kind, now)
    requires forall i :: 0 <= i < |selected| ==> selected[i] < |st.plans|
    ensures id < |st.plans|
    ensures id in Succeeded(ListedIn(st, c, kind, now).plans, selected, c, b) <==>
              b.permitted(id) && b.at(id) <= st.plans[id].expiresAt && WriteSucceeds(st.plans[id], id, b)
  {
    hide Succeeded, Gate, Listed, WriteSucceeds, Active;
    var listed := ListedIn(st, c, kind, now);
    ActiveMember(st.plans, |st.plans|, c, kind, now, id);
    assert Stored(st.plans[id]);
    SucceededExactly(listed.plans, selected, c, b, id);
    assert listed.plans[id] == st.plans[id];
    PendingGate(listed.plans, c, kind, id, b.at(id));
  }

  // ---------------------------------------------------------------- the service

  /** The rows that `create`, `getActive`, `markApplied`, `cancel` and the bulk request update in place. */
  class PlanService {
    var plans: seq<Plan>
    var effects: seq<PlanId>

    ghost function Now(): State
      reads this
    {
      State(plans, effects)
    }

    constructor ()
      ensures Now() == State([], []) && Inv(Now())
    {
      plans, effects := [], [];
    }

    method Create(c: Caller, kind: PlanKind, payloadLabel: Option<string>, summary: string, now: int) returns (id: PlanId)
      requires Inv(Now())
      modifies this
      ensures Now() == Proposed(old(Now()), c, kind, payloadLabel, summary, now)
      ensures id == |old(plans)| && |plans| == id + 1 && plans[..id] == old(plans) && effects == old(effects)
      ensures plans[id].status == PROPOSED && plans[id].expiresAt == now + 900000
      ensures plans[id].userId == c.userId && plans[id].schoolId == c.schoolId && plans[id].kind == kind
      ensures plans[id].payloadLabel == payloadLabel && plans[id].summary == summary
      ensures HasText(c.conversationId) ==> plans[id].conversationId == c.conversationId
      ensures !HasText(c.conversationId) ==> plans[id].conversationId == None
      ensures Gate(plans, id, c, now) == None
      ensures Inv(Now()) && Evolves(old(Now()), Now())
    {
      ProposedKeeps(Now(), c, kind, payloadLabel, summary, now);
      id := |plans|;
      var conversation := if TextOr(c.conversationId, "") != "" then c.conversationId else None;
      plans := plans + [Plan(c.userId, c.schoolId, conversation, kind, payloadLabel, summary, now + PLAN_TTL_MS, PROPOSED)];
    }

    /** The plan is usable when no refusal is returned; a plan found expired is marked so. */
    method GetActive(id: PlanId, c: Caller, now: int) returns (refusal: Option<Refusal>)
      modifies this
      ensures refusal == Gate(old(plans), id, c, now)
      ensures plans == AfterGate(old(plans), id, c, now) && effects == old(effects)
    {
      if id >= |plans| { return Some(NotFound); }
      var p := plans[id];
      if p.userId != c.userId || p.schoolId != c.schoolId { return Some(OtherSession); }
      if OtherConversationThan(p, c) { return Some(OtherConversation); }
      if p.status == APPLIED { return Some(AlreadyApplied); }
      if p.status == CANCELLED { return Some(WasCancelled); }
      if p.status != PROPOSED || p.expiresAt < now {
        plans := plans[id := p.(status := EXPIRED)];
        return Some(WasExpired);
      }
      return None;
    }

    /** `hasUser` and `succeeds` say whether the writer's own conditions hold and its write goes through. */
    method ApplyPlan(id: PlanId, c: Caller, now: int, hasUser: bool, succeeds: bool) returns (ok: bool)
      modifies this
      ensures var written := id < |old(plans)| && (old(plans)[id].kind == SCHEME ==> hasUser) && succeeds;
              && Now() == AppliedTo(old(Now()), id, c, now, written)
              && (ok <==> Gate(old(plans), id, c, now) == None && written)
              && (ok ==> plans == old(plans)[id := old(plans)[id].(status := APPLIED)] && effects == old(effects) + [id])
              && (!ok ==> effects == old(effects))
      ensures old(Inv(Now())) ==> Inv(Now()) && Evolves(old(Now()), Now())
    {
      ghost var written := id < |plans| && (plans[id].kind == SCHEME ==> hasUser) && succeeds;
      if Inv(Now()) { AppliedKeeps(Now(), id, c, now, written); }
      var refusal := GetActive(id, c, now);
      if refusal.Some? { return false; }
      if plans[id].kind == SCHEME && !hasUser { return false; }
      if !succeeds { return false; }
      effects := effects + [id];
      plans := plans[id := plans[id].(status := APPLIED)];
      return true;
    }

    method Cancel(id: PlanId, c: Caller, now: int) returns (cancelled: bool)
      modifies this
      ensures Now() == CancelledIn(old(Now()), id, c, now)
      ensures cancelled <==> Gate(old(plans), id, c.(conversationId := None), now) == None
      ensures cancelled ==> plans == old(plans)[id := old(plans)[id].(status := CANCELLED)]
      ensures effects == old(effects)
      ensures old(Inv(Now())) ==> Inv(Now()) && Evolves(old(Now()), Now())
    {
      if Inv(Now()) { CancelledKeeps(Now(), id, c, now); }
      var refusal := GetActive(id, c.(conversationId := None), now);
      if refusal.Some? { return false; }
      plans := plans[id := plans[id].(status := CANCELLED)];
      return true;
    }

    method ListActive(c: Caller, kind: Option<PlanKind>, now: int) returns (active: seq<PlanId>)
      modifies this
      ensures active == Active(old(plans), |old(plans)|, c, kind, now)
      ensures Now() == ListedIn(old(Now()), c, kind, now)
      ensures |plans| == |old(plans)| && effects == old(effects)
    {
      active := [];
      var rows := plans;
      for i := 0 to |rows|
        invariant rows == old(plans) && effects == old(effects)
        invariant plans == MarkExpired(rows, i, c, kind, now)
        invariant active == Active(rows, i, c, kind, now)
      {
        if Listed(rows[i], c, kind) {
          if rows[i].expiresAt < now {
            plans := plans[i := plans[i].(status := EXPIRED)];
          } else {
            active := active + [i];
          }
        }
      }
    }

    /** The selected plans are applied one by one; what fails is reported. */
    method ApplyEach(selected: seq<PlanId>, c: Caller, b: Bulk) returns (applied: seq<PlanId>, failed: seq<Failure>)
      requires Distinct(selected) && forall i :: 0 <= i < |selected| ==> selected[i] < |plans|
      modifies this
      ensures Now() == Bulked(old(Now()), selected, |selected|, c, b)
      ensures applied == Succeeded(old(plans), selected, c, b) && failed == Refused(old(plans), selected, c, b)
    {
      hide Gate, Bulked, AppliedTo, Succeeded, Refused;
      applied, failed := [], [];
      BulkNone(Now(), selected, c, b);
      for i := 0 to |selected|
        invariant Now() == Bulked(old(Now()), selected, i, c, b)
        invariant applied == Succeeded(old(plans), selected[..i], c, b)
        invariant failed == Refused(old(plans), selected[..i], c, b)
      {
        var id := selected[i];
        BulkNext(old(Now()), selected, i, c, b);
        var ok := false;
        if b.permitted(id) { ok := ApplyPlan(id, c, b.at(id), b.hasUser, b.succeeds(id)); }
        if ok { applied := applied + [id]; } else { failed := failed + [NotApplied(id)]; }
      }
      assert selected[..|selected|] == selected;
    }

    /** The plans of a request, and the queries that name none of them. */
    method SelectPlans(rows: seq<Plan>, pending: seq<PlanId>, named: bool, classQueries: seq<string>)
      returns (selected: seq<PlanId>, missed: seq<string>)
      requires forall i :: 0 <= i < |pending| ==> pending[i] < |rows|
      ensures selected == Selected(rows, pending, named, classQueries) && missed == Missed(rows, pending, named, classQueries)
    {
      if named {
        selected, missed := MatchByClassQueries(rows, pending, classQueries);
      } else {
        selected, missed := pending, [];
      }
    }

    /** All pending plans of the conversation, or those that the named classes match, are applied one by one. */
    method ApplyPendingPlans(c: Caller, kind: Option<PlanKind>, named: bool, classQueries: seq<string>, now: int, b: Bulk)
      returns (applied: seq<PlanId>, failed: seq<Failure>)
      requires Inv(Now())
      modifies this
      ensures Inv(Now()) && Evolves(old(Now()), Now())
      ensures named && classQueries == [] ==>
                applied == [] && failed == [NoClassNamed] && Now() == ListedIn(old(Now()), c, kind, now)
      ensures var pending := Active(old(plans), |old(plans)|, c, kind, now);
              var selected := Selected(old(plans), pending, named, classQueries);
              var missed := Missed(old(plans), pending, named, classQueries);
              var listed := ListedIn(old(Now()), c, kind, now);
              && (forall i :: 0 <= i < |selected| ==> selected[i] < |listed.plans|)
              && (!named || classQueries != [] ==>
                    && Now() == Bulked(listed, selected, |selected|, c, b)
                    && applied == Succeeded(listed.plans, selected, c, b)
                    && failed == Misses(missed) + Refused(listed.plans, selected, c, b)
                    && |applied| + |failed| == |selected| + |missed|
                    && effects == old(effects) + applied)
    {
      hide Inv, Evolves, Active, MarkExpired, Bulked, Selected, Missed, Succeeded, Refused;
      BulkAppliesSelection(Now(), c, kind, now, named, classQueries, b);
      ListedKeeps(Now(), c, kind, now);
      ActiveInRange(plans, c, kind, now);
      var rows := plans;
      var pending := ListActive(c, kind, now);
      if named && classQueries == [] { return [], [NoClassNamed]; }
      var selected, missed := SelectPlans(rows, pending, named, classQueries);
      var notApplied;
      failed := [];
      for i := 0 to |missed|
        invariant failed == Misses(missed[..i])
      {
        failed := failed + [NoPlanMatches(missed[i])];
      }
      assert missed[..|missed|] == missed;
      applied, notApplied := ApplyEach(selected, c, b);
      failed := failed + notApplied;
    }
  }
}
