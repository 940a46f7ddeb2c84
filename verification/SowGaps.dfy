/**
 Cards for scheme weeks that have passed without delivery (src/ai/lois-sow-gap.ts, src/ai/ai-insights.service.ts).
 */
module SowGaps {
  import opened Prelude
  import opened Decimals

  datatype Arm = Arm(classArmId: Option<string>, classId: Option<string>, name: string, status: Option<string>)

  datatype Delivery = Delivery(classArmId: Option<string>, status: string)

  // ---------------------------------------------------------------- splitting the arms of one week

  predicate Settled(status: string) { status == "DELIVERED" || status == "SKIPPED" || status == "COMBINED" }

  /** The status of the last delivery recorded for an arm; deliveries without an arm do not count. */
  function StatusOf(deliveries: seq<Delivery>, armId: string): Option<string> {
    if deliveries == [] || armId == "" then None
    else
      var last := deliveries[|deliveries| - 1];
      if last.classArmId == Some(armId) then Some(last.status) else StatusOf(deliveries[..|deliveries| - 1], armId)
  }

  predicate AnyArmMarked(deliveries: seq<Delivery>) {
    exists i :: 0 <= i < |deliveries| && TextOr(deliveries[i].classArmId, "") != ""
  }

  /** A week marked as a whole settles every arm, unless some arm was marked on its own. */
  predicate WholeWeek(deliveries: seq<Delivery>, weekIsDelivered: bool) { !AnyArmMarked(deliveries) && weekIsDelivered }

  function RowOf(arm: Arm, deliveries: seq<Delivery>): Option<string> { StatusOf(deliveries, TextOr(arm.classArmId, "")) }

  predicate IsSettled(arm: Arm, deliveries: seq<Delivery>, weekIsDelivered: bool) {
    WholeWeek(deliveries, weekIsDelivered) || (RowOf(arm, deliveries).Some? && Settled(RowOf(arm, deliveries).value))
  }

  /** The arm as it is listed: with its own status, or PENDING when it has none. */
  function Shown(arm: Arm, deliveries: seq<Delivery>, weekIsDelivered: bool): Arm {
    if WholeWeek(deliveries, weekIsDelivered) then arm
    else arm.(status := Some(TextOr(RowOf(arm, deliveries), "PENDING")))
  }

  /** The arms whose settledness is `settled`, in order, as they are listed. */
  function Side(arms: seq<Arm>, deliveries: seq<Delivery>, weekIsDelivered: bool, settled: bool): seq<Arm> {
    if arms == [] then []
    else
      var last := arms[|arms| - 1];
      Side(arms[..|arms| - 1], deliveries, weekIsDelivered, settled)
      + if IsSettled(last, deliveries, weekIsDelivered) == settled then [Shown(last, deliveries, weekIsDelivered)] else []
  }

  lemma NoArmNoStatus(deliveries: seq<Delivery>)
    ensures StatusOf(deliveries, "") == None
  {
  }

  /** `new Map(deliveries.filter(...).map(...))`: the last delivery of an arm counts. */
  method LastByArm(deliveries: seq<Delivery>) returns (byArm: map<string, Delivery>)
    ensures byArm != map[] <==> AnyArmMarked(deliveries)
    ensures forall id :: id in byArm <==> StatusOf(deliveries, id).Some?
    ensures forall id :: id in byArm ==> StatusOf(deliveries, id) == Some(byArm[id].status)
  {
    byArm := map[];
    for i := 0 to |deliveries|
      invariant byArm != map[] <==> AnyArmMarked(deliveries[..i])
      invariant forall id :: id in byArm <==> StatusOf(deliveries[..i], id).Some?
      invariant forall id :: id in byArm ==> StatusOf(deliveries[..i], id) == Some(byArm[id].status)
    {
      var d := deliveries[i];
      assert deliveries[..i + 1][..i] == deliveries[..i];
      MarkedNext(deliveries, i);
      if d.classArmId.Some? && d.classArmId.value != "" {
        byArm := byArm[d.classArmId.value := d];
        assert d.classArmId.value in byArm;
      }
    }
    assert deliveries[..|deliveries|] == deliveries;
  }

  method PartitionArmsForWeek(arms: seq<Arm>, deliveries: seq<Delivery>, weekIsDelivered: bool)
    returns (outstanding: seq<Arm>, delivered: seq<Arm>)
    ensures outstanding == Side(arms, deliveries, weekIsDelivered, false)
    ensures delivered == Side(arms, deliveries, weekIsDelivered, true)
  {
    hide StatusOf, AnyArmMarked;
    NoArmNoStatus(deliveries);
    outstanding, delivered := [], [];
    if |arms| == 0 { return; }
    var byArm := LastByArm(deliveries);
    if byArm == map[] && weekIsDelivered {
      WholeWeekSides(arms, deliveries);
      return [], arms;
    }
    for i := 0 to |arms|
      invariant outstanding == Side(arms[..i], deliveries, weekIsDelivered, false)
      invariant delivered == Side(arms[..i], deliveries, weekIsDelivered, true)
    {
      var arm := arms[i];
      assert arms[..i + 1][..i] == arms[..i];
      var row := None;
      if arm.classArmId.Some? && arm.classArmId.value != "" && arm.classArmId.value in byArm {
        row := Some(byArm[arm.classArmId.value].status);
      }
      assert row == RowOf(arm, deliveries);
      if row.Some? && Settled(row.value) {
        delivered := delivered + [arm.(status := row)];
      } else {
        outstanding := outstanding + [arm.(status := Some(TextOr(row, "PENDING")))];
      }
    }
    assert arms[..|arms|] == arms;
  }

  lemma MarkedNext(deliveries: seq<Delivery>, i: nat)
    requires i < |deliveries|
    ensures AnyArmMarked(deliveries[..i + 1]) <==> AnyArmMarked(deliveries[..i]) || TextOr(deliveries[i].classArmId, "") != ""
  {
    var before, after := deliveries[..i], deliveries[..i + 1];
    if AnyArmMarked(before) {
      var j :| 0 <= j < |before| && TextOr(before[j].classArmId, "") != "";
      assert after[j] == before[j];
    }
    if AnyArmMarked(after) {
      var j :| 0 <= j < |after| && TextOr(after[j].classArmId, "") != "";
      assert j < i ==> before[j] == after[j];
    }
    assert after[i] == deliveries[i];
  }

  lemma {:induction false} WholeWeekSides(arms: seq<Arm>, deliveries: seq<Delivery>)
    requires !AnyArmMarked(deliveries)
    ensures Side(arms, deliveries, true, true) == arms && Side(arms, deliveries, true, false) == []
  {
    if arms != [] {
      WholeWeekSides(arms[..|arms| - 1], deliveries);
      assert arms == arms[..|arms| - 1] + [arms[|arms| - 1]];
    }
  }

  predicate SameArm(a: Arm, b: Arm) { a == b.(status := a.status) }

  /** `arms` is an interleaving of the two lists, up to the statuses shown. */
  predicate Interleaves(arms: seq<Arm>, left: seq<Arm>, right: seq<Arm>) {
    if arms == [] then left == [] && right == []
    else
      var init, last := arms[..|arms| - 1], arms[|arms| - 1];
      || (left != [] && SameArm(left[|left| - 1], last) && Interleaves(init, left[..|left| - 1], right))
      || (right != [] && SameArm(right[|right| - 1], last) && Interleaves(init, left, right[..|right| - 1]))
  }

  /** The split loses no arm, lists none twice and keeps their order. */
  lemma {:induction false} PartitionInterleaves(arms: seq<Arm>, deliveries: seq<Delivery>, weekIsDelivered: bool)
    ensures Interleaves(arms, Side(arms, deliveries, weekIsDelivered, false), Side(arms, deliveries, weekIsDelivered, true))
    ensures |Side(arms, deliveries, weekIsDelivered, false)| + |Side(arms, deliveries, weekIsDelivered, true)| == |arms|
  {
    hide *;
    if arms == [] {
      NoArmsInterleave(deliveries, weekIsDelivered);
    } else {
      var init, last := arms[..|arms| - 1], arms[|arms| - 1];
      PartitionInterleaves(init, deliveries, weekIsDelivered);
      SideNext(arms, deliveries, weekIsDelivered, false);
      SideNext(arms, deliveries, weekIsDelivered, true);
      var left, right := Side(init, deliveries, weekIsDelivered, false), Side(init, deliveries, weekIsDelivered, true);
      var shown := Shown(last, deliveries, weekIsDelivered);
      ShownIsSame(last, deliveries, weekIsDelivered);
      assert arms == init + [last];
      InterleaveNext(init, last, shown, left, right);
    }
  }

  lemma NoArmsInterleave(deliveries: seq<Delivery>, weekIsDelivered: bool)
    ensures Interleaves([], Side([], deliveries, weekIsDelivered, false), Side([], deliveries, weekIsDelivered, true))
    ensures |Side([], deliveries, weekIsDelivered, false)| + |Side([], deliveries, weekIsDelivered, true)| == 0
  {
  }

  lemma SideNext(arms: seq<Arm>, deliveries: seq<Delivery>, weekIsDelivered: bool, settled: bool)
    requires arms != []
    ensures var init, last := arms[..|arms| - 1], arms[|arms| - 1];
            Side(arms, deliveries, weekIsDelivered, settled) ==
              if IsSettled(last, deliveries, weekIsDelivered) == settled
              then Side(init, deliveries, weekIsDelivered, settled) + [Shown(last, deliveries, weekIsDelivered)]
              else Side(init, deliveries, weekIsDelivered, settled)
  {
  }

  lemma ShownIsSame(arm: Arm, deliveries: seq<Delivery>, weekIsDelivered: bool)
    ensures SameArm(Shown(arm, deliveries, weekIsDelivered), arm)
  {
  }

  lemma InterleaveNext(arms: seq<Arm>, last: Arm, shown: Arm, left: seq<Arm>, right: seq<Arm>)
    requires Interleaves(arms, left, right) && SameArm(shown, last)
    ensures Interleaves(arms + [last], left + [shown], right) && Interleaves(arms + [last], left, right + [shown])
  {
    assert (arms + [last])[..|arms|] == arms && (left + [shown])[..|left|] == left && (right + [shown])[..|right|] == right;
  }

  /** Nothing is outstanding exactly when every arm is settled. */
  lemma {:induction false} NothingOutstanding(arms: seq<Arm>, deliveries: seq<Delivery>, weekIsDelivered: bool)
    ensures Side(arms, deliveries, weekIsDelivered, false) == [] <==>
              forall i :: 0 <= i < |arms| ==> IsSettled(arms[i], deliveries, weekIsDelivered)
  {
    if arms != [] { NothingOutstanding(arms[..|arms| - 1], deliveries, weekIsDelivered); }
  }

  // ---------------------------------------------------------------- what the marks of a week mean

  /** The last delivery that names the arm says `status`. */
  ghost predicate LastMark(deliveries: seq<Delivery>, armId: string, status: string) {
    exists i :: 0 <= i < |deliveries| && deliveries[i] == Delivery(Some(armId), status)
                && forall j :: i < j < |deliveries| ==> deliveries[j].classArmId != Some(armId)
  }

  /** The week was marked as a whole, and no delivery names an arm. */
  ghost predicate OnlyAsAWhole(deliveries: seq<Delivery>, weekIsDelivered: bool) {
    weekIsDelivered && forall i :: 0 <= i < |deliveries| ==> !HasText(deliveries[i].classArmId)
  }

  lemma {:induction false} StatusIsLastMark(deliveries: seq<Delivery>, armId: string, status: string)
    ensures StatusOf(deliveries, armId) == Some(status) <==> armId != "" && LastMark(deliveries, armId, status)
  {
    if deliveries != [] && armId != "" {
      var n := |deliveries| - 1;
      var init := deliveries[..n];
      StatusIsLastMark(init, armId, status);
      if deliveries[n].classArmId != Some(armId) {
        if i :| 0 <= i < |init| && init[i] == Delivery(Some(armId), status)
                && forall j :: i < j < |init| ==> init[j].classArmId != Some(armId) {
          assert deliveries[i] == init[i];
          assert LastMark(deliveries, armId, status);
        }
        if i :| 0 <= i < |deliveries| && deliveries[i] == Delivery(Some(armId), status)
                && forall j :: i < j < |deliveries| ==> deliveries[j].classArmId != Some(armId) {
          assert init[i] == deliveries[i];
          assert LastMark(init, armId, status);
        }
      }
    }
  }

  /** An arm is settled by its own last mark, or, while no arm has one, by the mark of the whole week. */
  lemma SettledExactly(arm: Arm, deliveries: seq<Delivery>, weekIsDelivered: bool)
    ensures IsSettled(arm, deliveries, weekIsDelivered) <==>
              || OnlyAsAWhole(deliveries, weekIsDelivered)
              || (HasText(arm.classArmId) && (|| LastMark(deliveries, arm.classArmId.value, "DELIVERED")
                                              || LastMark(deliveries, arm.classArmId.value, "SKIPPED")
                                              || LastMark(deliveries, arm.classArmId.value, "COMBINED")))
  {
    hide StatusOf, LastMark;
    NoArmNoStatus(deliveries);
    if HasText(arm.classArmId) {
      StatusIsLastMark(deliveries, arm.classArmId.value, "DELIVERED");
      StatusIsLastMark(deliveries, arm.classArmId.value, "SKIPPED");
      StatusIsLastMark(deliveries, arm.classArmId.value, "COMBINED");
    }
  }

  /** An arm is listed with its last mark, or as pending; when the whole week was marked, just as it is. */
  lemma ShownAs(arm: Arm, deliveries: seq<Delivery>, weekIsDelivered: bool)
    ensures var shown := Shown(arm, deliveries, weekIsDelivered);
            && shown == arm.(status := shown.status)
            && (OnlyAsAWhole(deliveries, weekIsDelivered) ==> shown == arm)
            && (!OnlyAsAWhole(deliveries, weekIsDelivered) && !HasText(arm.classArmId) ==> shown.status == Some("PENDING"))
            && (!OnlyAsAWhole(deliveries, weekIsDelivered) && HasText(arm.classArmId) ==>
                  shown.status.Some?
                  && (shown.status.value != "PENDING" ==> LastMark(deliveries, arm.classArmId.value, shown.status.value))
                  && (forall status :: LastMark(deliveries, arm.classArmId.value, status) && status != "" ==>
                        shown.status == Some(status)))
  {
    hide StatusOf, LastMark;
    NoArmNoStatus(deliveries);
    if HasText(arm.classArmId) {
      forall status
        ensures StatusOf(deliveries, arm.classArmId.value) == Some(status) <==> LastMark(deliveries, arm.classArmId.value, status)
      {
        StatusIsLastMark(deliveries, arm.classArmId.value, status);
      }
    }
  }

  /** Each side lists exactly its arms. */
  lemma {:induction false} SideMember(arms: seq<Arm>, deliveries: seq<Delivery>, weekIsDelivered: bool, settled: bool, x: Arm)
    ensures x in Side(arms, deliveries, weekIsDelivered, settled) <==>
              exists arm :: arm in arms && IsSettled(arm, deliveries, weekIsDelivered) == settled
                            && x == Shown(arm, deliveries, weekIsDelivered)
  {
    if arms != [] {
      hide IsSettled, Shown;
      var init, last := arms[..|arms| - 1], arms[|arms| - 1];
      SideMember(init, deliveries, weekIsDelivered, settled, x);
      assert arms == init + [last];
    }
  }

  // ---------------------------------------------------------------- the data of one run

  datatype Week = Week(weekNumber: nat, isDelivered: bool, deliveries: seq<Delivery>)

  /** A published scheme, the active arms of its class level, and its weeks that have ended. */
  datatype Scheme = Scheme(id: string, classId: Option<string>, classLabel: string, arms: seq<Arm>, weeks: seq<Week>)

  datatype Card = Card(schemeId: string, weekNumber: nat, outstanding: seq<Arm>, delivered: seq<Arm>)

  /** A card, and when it was first seen. */
  datatype Row = Row(card: Card, seenAt: Option<int>)

  const MAX_NEW_CARDS := 15
  const MAX_SCHEMES := 40

  function CardOf(s: Scheme, w: Week): Card {
    if s.arms != [] then
      Card(s.id, w.weekNumber, Side(s.arms, w.deliveries, w.isDelivered, false), Side(s.arms, w.deliveries, w.isDelivered, true))
    else
      Card(s.id, w.weekNumber, if w.isDelivered then [] else [Arm(None, s.classId, s.classLabel, None)], [])
  }

  function Fingerprint(c: Card): string { "SOW_GAP:" + c.schemeId + ":" + Decimal(c.weekNumber) }

  predicate AllDigits(s: string) { forall i :: 0 <= i < |s| ==> IsDigit(s[i]) }

  /** The last colon is the one before the digits. */
  lemma {:induction false} CutAtColon(a: string, m: string, b: string, n: string)
    requires AllDigits(m) && AllDigits(n) && a + ":" + m == b + ":" + n
    ensures a == b && m == n
  {
    var f, g := a + ":" + m, b + ":" + n;
    assert f[|f| - 1] == if m == "" then ':' else m[|m| - 1];
    assert g[|g| - 1] == if n == "" then ':' else n[|n| - 1];
    if m == "" {
      assert n == "";
      assert a == f[..|f| - 1] && b == g[..|g| - 1];
    } else {
      assert n != "";
      assert f[..|f| - 1] == a + ":" + m[..|m| - 1];
      assert g[..|g| - 1] == b + ":" + n[..|n| - 1];
      CutAtColon(a, m[..|m| - 1], b, n[..|n| - 1]);
    }
  }

  /** The card's fingerprint names its scheme and its week. */
  lemma FingerprintInjective(a: Card, b: Card)
    ensures Fingerprint(a) == Fingerprint(b) <==> a.schemeId == b.schemeId && a.weekNumber == b.weekNumber
  {
    if Fingerprint(a) == Fingerprint(b) {
      var prefix := "SOW_GAP:";
      DecimalDigits(a.weekNumber);
      DecimalDigits(b.weekNumber);
      CutAtColon(prefix + a.schemeId, Decimal(a.weekNumber), prefix + b.schemeId, Decimal(b.weekNumber));
      DecimalInjective(a.weekNumber, b.weekNumber);
      assert (prefix + a.schemeId)[|prefix|..] == a.schemeId && (prefix + b.schemeId)[|prefix|..] == b.schemeId;
    }
  }

  /** The cards of a list of schemes in the order of the two loops. */
  function WeekCards(s: Scheme, n: nat): seq<Card>
    requires n <= |s.weeks|
  {
    if n == 0 then [] else WeekCards(s, n - 1) + [CardOf(s, s.weeks[n - 1])]
  }

  function Cards(schemes: seq<Scheme>): seq<Card> {
    if schemes == [] then []
    else Cards(schemes[..|schemes| - 1]) + WeekCards(schemes[|schemes| - 1], |schemes[|schemes| - 1].weeks|)
  }

  /** The week is not over and done with: some arm has yet to settle it, or, where there is none, the week itself. */
  ghost predicate Outstanding(s: Scheme, w: Week) {
    || (s.arms == [] && !w.isDelivered)
    || exists i :: 0 <= i < |s.arms| && !IsSettled(s.arms[i], w.deliveries, w.isDelivered)
  }

  /** A card is of its scheme and week, and asks for something exactly when that is outstanding. */
  lemma CardShows(s: Scheme, w: Week)
    ensures var c := CardOf(s, w);
            && c.schemeId == s.id && c.weekNumber == w.weekNumber
            && (c.outstanding != [] <==> Outstanding(s, w))
            && (s.arms == [] && !w.isDelivered ==> c.outstanding == [Arm(None, s.classId, s.classLabel, None)])
            && (s.arms == [] ==> c.delivered == [])
  {
    NothingOutstanding(s.arms, w.deliveries, w.isDelivered);
  }

  // ---------------------------------------------------------------- one run

  type Rows = map<string, Row>

  /** `upsertInsight`: a card that exists keeps when it was seen. */
  function Upserted(rows: Rows, c: Card): Rows {
    var f := Fingerprint(c);
    rows[f := Row(c, if f in rows then rows[f].seenAt else None)]
  }

  /** The insight rows, and the fingerprints of the new cards in the order of creation. */
  datatype Progress = Progress(rows: Rows, created: seq<string>)

  /** One turn of the inner loop; past the limit the run has returned. */
  function Visit(p: Progress, c: Card): Progress {
    if |p.created| >= MAX_NEW_CARDS || c.outstanding == [] then p
    else Progress(Upserted(p.rows, c), if Fingerprint(c) in p.rows then p.created else p.created + [Fingerprint(c)])
  }

  function Visits(p: Progress, cards: seq<Card>): Progress {
    if cards == [] then p else Visit(Visits(p, cards[..|cards| - 1]), cards[|cards| - 1])
  }

  lemma {:induction false} VisitsConcat(p: Progress, a: seq<Card>, b: seq<Card>)
    ensures Visits(p, a + b) == Visits(Visits(p, a), b)
  {
    if b == [] {
      assert a + b == a;
    } else {
      VisitsConcat(p, a, b[..|b| - 1]);
      assert (a + b)[..|a + b| - 1] == a + b[..|b| - 1];
    }
  }

  lemma {:induction false} NothingPastTheLimit(p: Progress, cards: seq<Card>)
    requires |p.created| >= MAX_NEW_CARDS
    ensures Visits(p, cards) == p
  {
    if cards != [] { NothingPastTheLimit(p, cards[..|cards| - 1]); }
  }

  /** A run looks at the first forty published schemes. */
  function Taken(published: seq<Scheme>): seq<Scheme> {
    if |published| > MAX_SCHEMES then published[..MAX_SCHEMES] else published
  }

  function Captured(rows: Rows, published: seq<Scheme>): Progress {
    Visits(Progress(rows, []), Cards(Taken(published)))
  }

  // ---------------------------------------------------------------- progress

  /** The fingerprints of the weeks that are not delivered. */
  function Missing(cards: seq<Card>): set<string> {
    set i | 0 <= i < |cards| && cards[i].outstanding != [] :: Fingerprint(cards[i])
  }

  function MissingWeeks(cards: seq<Card>): set<(string, nat)> {
    set i | 0 <= i < |cards| && cards[i].outstanding != [] :: (cards[i].schemeId, cards[i].weekNumber)
  }

  /** A scheme among the first forty has the week, and it is outstanding. */
  ghost predicate Due(published: seq<Scheme>, id: string, n: nat) {
    exists s, w :: 0 <= s < |published| && s < 40 && 0 <= w < |published[s].weeks|
                   && published[s].id == id && published[s].weeks[w].weekNumber == n
                   && Outstanding(published[s], published[s].weeks[w])
  }

  ghost predicate OfWeek(s: Scheme, n: nat, c: Card)
    requires n <= |s.weeks|
  {
    exists w :: 0 <= w < n && c == CardOf(s, s.weeks[w])
  }

  lemma {:induction false} WeekCardsAre(s: Scheme, n: nat, c: Card)
    requires n <= |s.weeks|
    ensures c in WeekCards(s, n) <==> OfWeek(s, n, c)
  {
    hide CardOf;
    if n > 0 { WeekCardsAre(s, n - 1, c); }
  }

  ghost predicate OfScheme(schemes: seq<Scheme>, c: Card) {
    exists s :: 0 <= s < |schemes| && OfWeek(schemes[s], |schemes[s].weeks|, c)
  }

  lemma OfSchemeNext(schemes: seq<Scheme>, c: Card)
    requires schemes != []
    ensures var (init, last) := (schemes[..|schemes| - 1], schemes[|schemes| - 1]);
            OfScheme(schemes, c) <==> OfScheme(init, c) || OfWeek(last, |last.weeks|, c)
  {
    hide OfWeek;
    var n := |schemes| - 1;
    var init := schemes[..n];
    if OfScheme(init, c) {
      var s :| 0 <= s < |init| && OfWeek(init[s], |init[s].weeks|, c);
      assert schemes[s] == init[s];
    }
    if OfScheme(schemes, c) {
      var s :| 0 <= s < |schemes| && OfWeek(schemes[s], |schemes[s].weeks|, c);
      assert s < n ==> init[s] == schemes[s];
    }
  }

  lemma CardsNext(schemes: seq<Scheme>)
    requires schemes != []
    ensures var (init, last) := (schemes[..|schemes| - 1], schemes[|schemes| - 1]);
            Cards(schemes) == Cards(init) + WeekCards(last, |last.weeks|)
  {
  }

  lemma {:induction false} CardsAre(schemes: seq<Scheme>, c: Card)
    ensures c in Cards(schemes) <==> OfScheme(schemes, c)
  {
    hide OfWeek, WeekCards, OfScheme, Cards;
    if schemes == [] {
      NoCards(c);
    } else {
      var init, last := schemes[..|schemes| - 1], schemes[|schemes| - 1];
      CardsAre(init, c);
      CardsNext(schemes);
      WeekCardsAre(last, |last.weeks|, c);
      OfSchemeNext(schemes, c);
    }
  }

  lemma NoCards(c: Card)
    ensures Cards([]) == [] && !OfScheme([], c)
  {
  }

  /** The weeks that get cards are the outstanding ones of the first forty schemes. */
  lemma MissingExactlyDue(published: seq<Scheme>, id: string, n: nat)
    ensures (id, n) in MissingWeeks(Cards(Taken(published))) <==> Due(published, id, n)
  {
    hide Cards, CardOf, Outstanding;
    var schemes := Taken(published);
    var cards := Cards(schemes);
    if (id, n) in MissingWeeks(cards) {
      var i :| 0 <= i < |cards| && cards[i].outstanding != [] && (id, n) == (cards[i].schemeId, cards[i].weekNumber);
      CardsAre(schemes, cards[i]);
      var s :| 0 <= s < |schemes| && OfWeek(schemes[s], |schemes[s].weeks|, cards[i]);
      var w :| 0 <= w < |schemes[s].weeks| && cards[i] == CardOf(schemes[s], schemes[s].weeks[w]);
      CardShows(schemes[s], schemes[s].weeks[w]);
      assert published[s] == schemes[s];
    }
    if s, w :| 0 <= s < |published| && s < 40 && 0 <= w < |published[s].weeks|
               && published[s].id == id && published[s].weeks[w].weekNumber == n
               && Outstanding(published[s], published[s].weeks[w]) {
      assert schemes[s] == published[s];
      var c := CardOf(schemes[s], schemes[s].weeks[w]);
      assert OfWeek(schemes[s], |schemes[s].weeks|, c);
      CardsAre(schemes, c);
      CardShows(schemes[s], schemes[s].weeks[w]);
      var i :| 0 <= i < |cards| && cards[i] == c;
      assert (id, n) == (cards[i].schemeId, cards[i].weekNumber);
    }
  }

  /** What the rows hold after visiting some cards. */
  ghost predicate Filed(rows: Rows, p: Progress, cards: seq<Card>) {
    && p.rows.Keys == rows.Keys + Elements(p.created)
    && Elements(p.created) !! rows.Keys
    && Distinct(p.created)
    && Elements(p.created) <= Missing(cards)
    && |p.created| <= MAX_NEW_CARDS
    && (|p.created| < MAX_NEW_CARDS ==> Missing(cards) <= p.rows.Keys)
  }

  lemma MissingNext(cards: seq<Card>, n: nat)
    requires n < |cards|
    ensures Missing(cards[..n + 1]) ==
              Missing(cards[..n]) + (if cards[n].outstanding != [] then {Fingerprint(cards[n])} else {})
  {
    hide Fingerprint;
    var before, after := cards[..n], cards[..n + 1];
    forall i | 0 <= i < n ensures before[i] == after[i] { }
    forall f | f in Missing(after) ensures f in Missing(before) || (cards[n].outstanding != [] && f == Fingerprint(cards[n])) {
      var i :| 0 <= i < |after| && after[i].outstanding != [] && f == Fingerprint(after[i]);
      assert i < n ==> before[i] == after[i];
    }
    forall f | f in Missing(before) ensures f in Missing(after) {
      var i :| 0 <= i < |before| && before[i].outstanding != [] && f == Fingerprint(before[i]);
      assert after[i] == before[i];
    }
    assert after[n] == cards[n];
  }

  lemma ElementsNext(xs: seq<string>, x: string)
    ensures Elements(xs + [x]) == Elements(xs) + {x}
  {
  }

  lemma VisitFiles(rows: Rows, p: Progress, cards: seq<Card>, n: nat)
    requires n < |cards| && Filed(rows, p, cards[..n])
    ensures Filed(rows, Visit(p, cards[n]), cards[..n + 1])
  {
    hide Fingerprint, Missing;
    var c := cards[n];
    MissingNext(cards, n);
    ElementsNext(p.created, Fingerprint(c));
    var q := Visit(p, c);
    if |p.created| < MAX_NEW_CARDS && c.outstanding != [] {
      assert q.rows.Keys == p.rows.Keys + {Fingerprint(c)};
      if Fingerprint(c) !in p.rows { assert Fingerprint(c) !in Elements(p.created); }
    }
  }

  lemma {:induction false} VisitsFile(rows: Rows, cards: seq<Card>, n: nat)
    requires n <= |cards|
    ensures Filed(rows, Visits(Progress(rows, []), cards[..n]), cards[..n])
  {
    if n == 0 {
      assert Missing(cards[..0]) == {};
      assert Elements<string>([]) == {};
      assert rows.Keys + {} == rows.Keys;
    } else {
      VisitsFile(rows, cards, n - 1);
      VisitFiles(rows, Visits(Progress(rows, []), cards[..n - 1]), cards, n - 1);
      assert cards[..n][..n - 1] == cards[..n - 1];
    }
  }

  /** The row holds what some visited card says. */
  ghost predicate Shows(row: Row, cards: seq<Card>) {
    exists i :: 0 <= i < |cards| && row.card == cards[i] && cards[i].outstanding != []
  }

  /** A run rewrites what cards say, never when they were seen; a card it does not touch stays as it was. */
  lemma {:induction false} VisitsShowData(p: Progress, cards: seq<Card>, f: string)
    requires f in Visits(p, cards).rows
    ensures var after := Visits(p, cards).rows[f];
            && after.seenAt == (if f in p.rows then p.rows[f].seenAt else None)
            && ((f in p.rows && after == p.rows[f]) || (f == Fingerprint(after.card) && Shows(after, cards)))
  {
    hide Fingerprint;
    if cards != [] {
      var n := |cards| - 1;
      var init, before := cards[..n], Visits(p, cards[..n]);
      var after := Visits(p, cards).rows[f];
      if f in before.rows {
        VisitsShowData(p, init, f);
        if Shows(before.rows[f], init) {
          var i :| 0 <= i < |init| && before.rows[f].card == init[i] && init[i].outstanding != [];
          assert cards[i] == init[i];
        }
      } else {
        VisitsKeepRows(p, init, f);
      }
      if f !in before.rows || after != before.rows[f] { assert after.card == cards[n]; }
    }
  }

  /** A run that stays below its limit rewrites the row of every card that asks for something. */
  lemma {:induction false} VisitsRefresh(p: Progress, cards: seq<Card>, i: nat)
    requires i < |cards| && cards[i].outstanding != [] && |Visits(p, cards).created| < 15
    ensures var after := Visits(p, cards).rows;
            Fingerprint(cards[i]) in after && Shows(after[Fingerprint(cards[i])], cards)
  {
    hide Fingerprint;
    var n := |cards| - 1;
    var init, before, after := cards[..n], Visits(p, cards[..n]), Visits(p, cards).rows;
    if cards[n].outstanding != [] && Fingerprint(cards[n]) == Fingerprint(cards[i]) {
      assert after[Fingerprint(cards[i])].card == cards[n];
    } else {
      assert i < n && cards[i] == init[i];
      VisitsRefresh(p, init, i);
      var f := Fingerprint(cards[i]);
      assert after[f] == before.rows[f];
      var j :| 0 <= j < |init| && before.rows[f].card == init[j] && init[j].outstanding != [];
      assert cards[j] == init[j];
    }
  }

  lemma {:induction false} VisitsKeepRows(p: Progress, cards: seq<Card>, f: string)
    ensures f in p.rows ==> f in Visits(p, cards).rows
  {
    if cards != [] { VisitsKeepRows(p, cards[..|cards| - 1], f); }
  }

  function Min(a: nat, b: nat): nat { if a <= b then a else b }

  /** How many of the cards that are due exist. */
  function Held(rows: Rows, due: set<string>): nat { |rows.Keys * due| }

  /** The other cards are the same ones. */
  predicate OthersKept(before: Rows, after: Rows, due: set<string>) { after.Keys - due == before.Keys - due }

  function Runs(rows: Rows, published: seq<Scheme>, k: nat): Rows {
    if k == 0 then rows else Captured(Runs(rows, published, k - 1), published).rows
  }

  lemma AddedWithin<T>(a: set<T>, b: set<T>, added: set<T>, due: set<T>)
    requires b == a + added && added !! a && added <= due
    ensures |b * due| == |a * due| + |added| <= |due| && b - due == a - due
    ensures due <= b ==> |b * due| == |due|
  {
    assert b * due == a * due + added;
    SubsetSize(b * due, due);
    if due <= b { assert b * due == due; }
  }

  lemma HeldAtMost(rows: Rows, due: set<string>)
    ensures Held(rows, due) <= |due|
  {
    SubsetSize(rows.Keys * due, due);
  }

  lemma MinNext(n: nat, held: nat, k: nat)
    ensures Min(n, Min(n, held + MAX_NEW_CARDS * k) + MAX_NEW_CARDS) == Min(n, held + MAX_NEW_CARDS * (k + 1))
  {
  }

  lemma NoRuns(rows: Rows, published: seq<Scheme>, due: set<string>)
    ensures Runs(rows, published, 0) == rows && Held(rows, due) == Min(|due|, Held(rows, due))
  {
    HeldAtMost(rows, due);
  }

  lemma RunsNext(rows: Rows, published: seq<Scheme>, k: nat)
    requires k > 0
    ensures Runs(rows, published, k) == Captured(Runs(rows, published, k - 1), published).rows
  {
  }

  lemma OthersKeptTransitive(a: Rows, b: Rows, c: Rows, due: set<string>)
    ensures OthersKept(a, a, due)
    ensures OthersKept(a, b, due) && OthersKept(b, c, due) ==> OthersKept(a, c, due)
  {
  }

  /** One run files at most fifteen of the cards that are due, and all of them if that is enough. */
  lemma OneRun(rows: Rows, published: seq<Scheme>)
    ensures var due, after := Missing(Cards(Taken(published))), Captured(rows, published);
            && Held(after.rows, due) == Min(|due|, Held(rows, due) + MAX_NEW_CARDS)
            && OthersKept(rows, after.rows, due)
            && |after.created| == Held(after.rows, due) - Held(rows, due)
  {
    hide Missing, Cards, Visits;
    var cards := Cards(Taken(published));
    var after := Captured(rows, published);
    VisitsFile(rows, cards, |cards|);
    assert cards[..|cards|] == cards;
    DistinctSize(after.created);
    AddedWithin(rows.Keys, after.rows.Keys, Elements(after.created), Missing(cards));
  }

  /** While the data stays as it is, every run but the last files fifteen more of the cards that are due. */
  lemma {:induction false} RunsFile(rows: Rows, published: seq<Scheme>, k: nat)
    ensures var due, after := Missing(Cards(Taken(published))), Runs(rows, published, k);
            && Held(after, due) == Min(|due|, Held(rows, due) + MAX_NEW_CARDS * k)
            && OthersKept(rows, after, due)
  {
    hide *;
    var due := Missing(Cards(Taken(published)));
    OthersKeptTransitive(rows, rows, rows, due);
    if k == 0 {
      NoRuns(rows, published, due);
    } else {
      var before := Runs(rows, published, k - 1);
      RunsFile(rows, published, k - 1);
      OneRun(before, published);
      RunsNext(rows, published, k);
      MinNext(|due|, Held(rows, due), k - 1);
      OthersKeptTransitive(rows, before, Captured(before, published).rows, due);
    }
  }

  /** There is one fingerprint for each week that is not delivered. */
  lemma {:induction false} OneCardPerWeek(cards: seq<Card>)
    ensures |Missing(cards)| == |MissingWeeks(cards)|
  {
    if cards == [] {
      assert Missing(cards) == {} && MissingWeeks(cards) == {};
    } else {
      hide Fingerprint, Missing, MissingWeeks;
      var n := |cards| - 1;
      var init, last := cards[..n], cards[n];
      OneCardPerWeek(init);
      assert cards[..n + 1] == cards;
      MissingNext(cards, n);
      WeeksNext(cards, n);
      SameWeekSameCard(init, last);
    }
  }

  lemma SameWeekSameCard(cards: seq<Card>, c: Card)
    ensures Fingerprint(c) in Missing(cards) <==> (c.schemeId, c.weekNumber) in MissingWeeks(cards)
  {
    hide Fingerprint;
    var key := (c.schemeId, c.weekNumber);
    if key in MissingWeeks(cards) {
      var i :| 0 <= i < |cards| && cards[i].outstanding != [] && key == (cards[i].schemeId, cards[i].weekNumber);
      FingerprintInjective(cards[i], c);
    }
    if Fingerprint(c) in Missing(cards) {
      var i :| 0 <= i < |cards| && cards[i].outstanding != [] && Fingerprint(c) == Fingerprint(cards[i]);
      FingerprintInjective(cards[i], c);
      assert key == (cards[i].schemeId, cards[i].weekNumber);
    }
  }

  lemma WeeksNext(cards: seq<Card>, n: nat)
    requires n < |cards|
    ensures MissingWeeks(cards[..n + 1]) ==
              MissingWeeks(cards[..n]) + (if cards[n].outstanding != [] then {(cards[n].schemeId, cards[n].weekNumber)} else {})
  {
    var before, after := cards[..n], cards[..n + 1];
    forall i | 0 <= i < n ensures before[i] == after[i] { }
    forall f | f in MissingWeeks(after)
      ensures f in MissingWeeks(before) || (cards[n].outstanding != [] && f == (cards[n].schemeId, cards[n].weekNumber))
    {
      var i :| 0 <= i < |after| && after[i].outstanding != [] && f == (after[i].schemeId, after[i].weekNumber);
      assert i < n ==> before[i] == after[i];
    }
    forall f | f in MissingWeeks(before) ensures f in MissingWeeks(after) {
      var i :| 0 <= i < |before| && before[i].outstanding != [] && f == (before[i].schemeId, before[i].weekNumber);
      assert after[i] == before[i];
    }
    assert after[n] == cards[n];
  }

  /**
   Starting without cards, `k` runs leave one card for each of min(N, 15k) of the N weeks that are not delivered in the
   schemes looked at: all of them after N / 15 runs, rounded up, and never two for one week.
   */
  lemma FiledAfterRuns(published: seq<Scheme>, k: nat)
    ensures var weeks := MissingWeeks(Cards(Taken(published)));
            && |Runs(map[], published, k)| == Min(|weeks|, 15 * k)
            && Runs(map[], published, k).Keys <= Missing(Cards(Taken(published)))
            && (k >= (|weeks| + 14) / 15 ==> Runs(map[], published, k).Keys == Missing(Cards(Taken(published))))
  {
    hide Missing, MissingWeeks, Cards, Runs, Taken, Held, OthersKept;
    var none: Rows := map[];
    var cards, rows := Cards(Taken(published)), Runs(none, published, k);
    RunsFile(none, published, k);
    OneCardPerWeek(cards);
    OnlyDue(rows, Missing(cards));
    assert |rows| == Min(|MissingWeeks(cards)|, 15 * k);
  }

  lemma WithinDue<T>(keys: set<T>, due: set<T>)
    requires keys - due == {}
    ensures keys <= due && keys * due == keys
    ensures |keys| == |due| ==> keys == due
  {
    forall x | x in keys ensures x in due {
      assert x !in keys - due;
    }
    assert keys * due == keys;
    SubsetSize(keys, due);
  }

  lemma OnlyDue(rows: Rows, due: set<string>)
    requires OthersKept(map[], rows, due)
    ensures rows.Keys <= due && Held(rows, due) == |rows| && Held(map[], due) == 0
    ensures |rows| == |due| ==> rows.Keys == due
  {
    var none: Rows := map[];
    assert none.Keys - due == {} && none.Keys * due == {};
    WithinDue(rows.Keys, due);
  }

  // ---------------------------------------------------------------- the service

  /** The insight rows that a run updates in place. */
  class InsightDesk {
    var rows: Rows

    constructor ()
      ensures rows == map[]
    {
      rows := map[];
    }

    method UpsertInsight(c: Card) returns (created: bool)
      modifies this
      ensures rows == Upserted(old(rows), c)
      ensures rows == old(rows)[Fingerprint(c) := Row(c, if Fingerprint(c) in old(rows) then old(rows)[Fingerprint(c)].seenAt else None)]
      ensures created <==> Fingerprint(c) !in old(rows)
    {
      var f := Fingerprint(c);
      created := f !in rows;
      rows := rows[f := Row(c, if f in rows then rows[f].seenAt else None)];
    }

    /** The fingerprints of the new cards are returned in the order of creation. */
    method CaptureSowGaps(published: seq<Scheme>) returns (created: seq<string>)
      modifies this
      ensures Progress(rows, created) == Captured(old(rows), published)
    {
      hide Visits, Cards, WeekCards, Side, Fingerprint;
      var schemes := Taken(published);
      ghost var start := Progress(rows, []);
      created := [];
      CardsOfNone(start, schemes);
      for s := 0 to |schemes|
        invariant Progress(rows, created) == Visits(start, Cards(schemes[..s]))
      {
        var scheme := schemes[s];
        ghost var before := Cards(schemes[..s]);
        NextScheme(schemes, s);
        for w := 0 to |scheme.weeks|
          invariant Progress(rows, created) == Visits(start, before + WeekCards(scheme, w))
        {
          if |created| >= MAX_NEW_CARDS {
            RestIsSkipped(start, schemes, s, w);
            return;
          }
          var week := scheme.weeks[w];
          NextWeek(start, before, scheme, w);
          var outstanding, delivered := [], [];
          if |scheme.arms| > 0 {
            outstanding, delivered := PartitionArmsForWeek(scheme.arms, week.deliveries, week.isDelivered);
          } else if !week.isDelivered {
            outstanding := [Arm(None, scheme.classId, scheme.classLabel, None)];
          }
          if |outstanding| == 0 { continue; }
          var card := Card(scheme.id, week.weekNumber, outstanding, delivered);
          var isNew := UpsertInsight(card);
          if isNew { created := created + [Fingerprint(card)]; }
        }
      }
      assert schemes[..|schemes|] == schemes;
    }
  }

  lemma CardsOfNone(start: Progress, schemes: seq<Scheme>)
    ensures Visits(start, Cards(schemes[..0])) == start
  {
  }

  lemma NextScheme(schemes: seq<Scheme>, s: nat)
    requires s < |schemes|
    ensures Cards(schemes[..s]) + WeekCards(schemes[s], 0) == Cards(schemes[..s])
    ensures Cards(schemes[..s + 1]) == Cards(schemes[..s]) + WeekCards(schemes[s], |schemes[s].weeks|)
  {
    assert schemes[..s + 1][..s] == schemes[..s];
  }

  lemma NextWeek(start: Progress, before: seq<Card>, s: Scheme, w: nat)
    requires w < |s.weeks|
    ensures Visits(start, before + WeekCards(s, w + 1)) == Visit(Visits(start, before + WeekCards(s, w)), CardOf(s, s.weeks[w]))
  {
    var done, card := before + WeekCards(s, w), CardOf(s, s.weeks[w]);
    assert before + WeekCards(s, w + 1) == done + [card];
    assert (done + [card])[..|done|] == done;
  }

  lemma RestIsSkipped(start: Progress, schemes: seq<Scheme>, s: nat, w: nat)
    requires s < |schemes| && w <= |schemes[s].weeks|
    requires |Visits(start, Cards(schemes[..s]) + WeekCards(schemes[s], w)).created| >= MAX_NEW_CARDS
    ensures Visits(start, Cards(schemes)) == Visits(start, Cards(schemes[..s]) + WeekCards(schemes[s], w))
  {
    var done := Cards(schemes[..s]) + WeekCards(schemes[s], w);
    CardsSplit(schemes, s, w);
    VisitsConcat(start, done, Cards(schemes)[|done|..]);
    NothingPastTheLimit(Visits(start, done), Cards(schemes)[|done|..]);
    assert done + Cards(schemes)[|done|..] == Cards(schemes);
  }

  lemma {:induction false} WeekCardsPrefix(s: Scheme, w: nat, n: nat)
    requires w <= n <= |s.weeks|
    ensures WeekCards(s, w) <= WeekCards(s, n)
  {
    if w < n { WeekCardsPrefix(s, w, n - 1); }
  }

  lemma PrefixExtended<T>(a: seq<T>, b: seq<T>, c: seq<T>)
    requires a <= b
    ensures a <= b + c
  {
  }

  lemma PrefixAppended<T>(a: seq<T>, b: seq<T>, c: seq<T>)
    requires b <= c
    ensures a + b <= a + c
  {
  }

  lemma {:induction false} CardsSplit(schemes: seq<Scheme>, s: nat, w: nat)
    requires s < |schemes| && w <= |schemes[s].weeks|
    ensures Cards(schemes[..s]) + WeekCards(schemes[s], w) <= Cards(schemes)
  {
    var n := |schemes| - 1;
    var init, rest := Cards(schemes[..n]), WeekCards(schemes[n], |schemes[n].weeks|);
    assert Cards(schemes) == init + rest;
    if s < n {
      CardsSplit(schemes[..n], s, w);
      assert schemes[..n][..s] == schemes[..s];
      PrefixExtended(Cards(schemes[..s]) + WeekCards(schemes[s], w), init, rest);
    } else {
      hide Cards, WeekCards;
      WeekCardsPrefix(schemes[s], w, |schemes[s].weeks|);
      PrefixAppended(init, WeekCards(schemes[s], w), rest);
    }
  }
}
