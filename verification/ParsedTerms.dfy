/**
 The canonical term/week structure that per-chunk parse results are merged into
 (src/agora-curriculum/full-year-curriculum.util.ts).

 A list of terms denotes a table: for every term number, for every week number, the first
 week that claimed that slot. The loops of the source are proved against this denotation.
 */
module ParsedTerms {
  import opened Prelude
  import opened Ordered

  const FULL_YEAR_TERMS := 3
  const WEEKS_PER_TERM := 13
  const FULL_YEAR_WEEKS := FULL_YEAR_TERMS * WEEKS_PER_TERM

  /** A week as a model or an old record supplies it: every field may be absent. */
  datatype LooseWeek = LooseWeek(
    weekNumber: Option<int>,
    title: Option<string>,
    topic: Option<string>,
    description: Option<string>,
    subTopics: Option<seq<string>>,
    learningOutcomes: Option<seq<string>>,
    objectives: Option<seq<string>>,
    studentFriendlyOutcomes: Option<seq<string>>,
    suggestedActivities: Option<seq<string>>,
    resources: Option<seq<string>>,
    assessmentType: Option<string>,
    term: Option<int>)

  datatype ParsedWeek = ParsedWeek(
    weekNumber: int,
    title: string,
    description: Option<string>,
    subTopics: seq<string>,
    learningOutcomes: seq<string>,
    studentFriendlyOutcomes: seq<string>,
    suggestedActivities: seq<string>,
    resources: seq<string>,
    assessmentType: string)

  /** An unchecked term: no number means that the source skips it; absent weeks read as none. */
  datatype RawTerm = RawTerm(term: Option<int>, weeks: seq<LooseWeek>)

  datatype ParsedTerm = ParsedTerm(term: int, weeks: seq<ParsedWeek>)

  function AsParsedWeek(raw: LooseWeek, fallbackWeek: int): ParsedWeek {
    ParsedWeek(
      if raw.weekNumber.Some? && raw.weekNumber.value > 0 then raw.weekNumber.value else fallbackWeek,
      TextOr(raw.title, TextOr(raw.topic, "Untitled topic")),
      raw.description,
      raw.subTopics.GetOr([]),
      if raw.learningOutcomes.Some? then raw.learningOutcomes.value else raw.objectives.GetOr([]),
      raw.studentFriendlyOutcomes.GetOr([]),
      raw.suggestedActivities.GetOr([]),
      raw.resources.GetOr([]),
      raw.assessmentType.GetOr(""))
  }

  /** `weeks.map((week, i) => asParsedWeek(week, i + 1))` */
  function WeeksOf(raw: seq<LooseWeek>): (r: seq<ParsedWeek>) {
    seq(|raw|, i requires 0 <= i < |raw| => AsParsedWeek(raw[i], i + 1))
  }

  /** A parsed week read back as loose data, optionally carrying its term number. */
  function Loose(w: ParsedWeek, term: Option<int>): LooseWeek {
    LooseWeek(Some(w.weekNumber), Some(w.title), None, w.description, Some(w.subTopics), Some(w.learningOutcomes), None,
              Some(w.studentFriendlyOutcomes), Some(w.suggestedActivities), Some(w.resources), Some(w.assessmentType), term)
  }

  function LooseAll(ws: seq<ParsedWeek>, term: Option<int>): seq<LooseWeek> {
    seq(|ws|, i requires 0 <= i < |ws| => Loose(ws[i], term))
  }

  function RawTerms(ts: seq<ParsedTerm>): seq<RawTerm> {
    seq(|ts|, i requires 0 <= i < |ts| => RawTerm(Some(ts[i].term), LooseAll(ts[i].weeks, None)))
  }

  // ---------------------------------------------------------------- what a list of terms means

  /** The first week of a list that carries number `n`. */
  ghost function FirstWeek(ws: seq<ParsedWeek>, n: int): Option<ParsedWeek> {
    if ws == [] then None
    else
      var last := ws[|ws| - 1];
      OrElse(FirstWeek(ws[..|ws| - 1], n), if last.weekNumber == n then Some(last) else None)
  }

  /** The first week that claims slot (term, n). */
  ghost function Slot(ts: seq<RawTerm>, term: int, n: int): Option<ParsedWeek> {
    if ts == [] then None
    else
      var last := ts[|ts| - 1];
      OrElse(Slot(ts[..|ts| - 1], term, n),
             if last.term == Some(term) then FirstWeek(WeeksOf(last.weeks), n) else None)
  }

  ghost predicate Present(ts: seq<RawTerm>, term: int) {
    exists i :: 0 <= i < |ts| && ts[i].term == Some(term)
  }

  ghost predicate ValidWeek(w: ParsedWeek) {
    w.weekNumber > 0 && w.title != ""
  }

  ghost predicate InWeekOrder(ws: seq<ParsedWeek>) {
    forall i, j :: 0 <= i < j < |ws| ==> ws[i].weekNumber < ws[j].weekNumber
  }

  ghost predicate CanonicalWeeks(ws: seq<ParsedWeek>) {
    InWeekOrder(ws) && forall i :: 0 <= i < |ws| ==> ValidWeek(ws[i])
  }

  /** Terms and weeks strictly ascending, every week numbered from 1 and titled. */
  ghost predicate Canonical(ts: seq<ParsedTerm>) {
    && (forall i, j :: 0 <= i < j < |ts| ==> ts[i].term < ts[j].term)
    && (forall i :: 0 <= i < |ts| ==> CanonicalWeeks(ts[i].weeks))
  }

  /** The same terms, and the same week on every slot. */
  ghost predicate SameTable(a: seq<RawTerm>, b: seq<RawTerm>) {
    && (forall t :: Present(a, t) <==> Present(b, t))
    && (forall t, n :: Slot(a, t, n) == Slot(b, t, n))
  }

  /** `r` is the canonical list of both inputs together, the left one winning every shared slot. */
  ghost predicate IsMerge(base: seq<RawTerm>, incoming: seq<RawTerm>, r: seq<ParsedTerm>) {
    && Canonical(r)
    && (forall t :: Present(RawTerms(r), t) <==> Present(base, t) || Present(incoming, t))
    && (forall t, n :: Slot(RawTerms(r), t, n) == OrElse(Slot(base, t, n), Slot(incoming, t, n)))
  }

  // ---------------------------------------------------------------- lookups

  lemma {:induction false} FirstWeekConcat(a: seq<ParsedWeek>, b: seq<ParsedWeek>, n: int)
    ensures FirstWeek(a + b, n) == OrElse(FirstWeek(a, n), FirstWeek(b, n))
  {
    if b == [] {
      assert a + b == a;
    } else {
      FirstWeekConcat(a, b[..|b| - 1], n);
      assert (a + b)[..|a + b| - 1] == a + b[..|b| - 1];
    }
  }

  lemma {:induction false} FirstWeekFound(ws: seq<ParsedWeek>, n: int)
    ensures FirstWeek(ws, n).Some? <==> exists i :: 0 <= i < |ws| && ws[i].weekNumber == n
    ensures FirstWeek(ws, n).Some? ==> FirstWeek(ws, n).value in ws && FirstWeek(ws, n).value.weekNumber == n
  {
    if ws != [] {
      var init, last := ws[..|ws| - 1], ws[|ws| - 1];
      FirstWeekFound(init, n);
      assert forall i :: 0 <= i < |init| ==> init[i] == ws[i];
      assert ws == init + [last];
    }
  }

  lemma {:induction false} FirstWeekAt(ws: seq<ParsedWeek>, i: nat)
    requires InWeekOrder(ws) && i < |ws|
    ensures FirstWeek(ws, ws[i].weekNumber) == Some(ws[i])
  {
    var init, last := ws[..|ws| - 1], ws[|ws| - 1];
    if i < |init| {
      FirstWeekAt(init, i);
    } else {
      FirstWeekFound(init, last.weekNumber);
    }
  }

  lemma {:induction false} SlotConcat(a: seq<RawTerm>, b: seq<RawTerm>, t: int, n: int)
    ensures Slot(a + b, t, n) == OrElse(Slot(a, t, n), Slot(b, t, n))
  {
    if b == [] {
      assert a + b == a;
    } else {
      SlotConcat(a, b[..|b| - 1], t, n);
      assert (a + b)[..|a + b| - 1] == a + b[..|b| - 1];
    }
  }

  lemma PresentConcat(a: seq<RawTerm>, b: seq<RawTerm>, t: int)
    ensures Present(a + b, t) <==> Present(a, t) || Present(b, t)
  {
    if i :| 0 <= i < |a| && a[i].term == Some(t) { assert (a + b)[i].term == Some(t); }
    if i :| 0 <= i < |b| && b[i].term == Some(t) { assert (a + b)[|a| + i].term == Some(t); }
  }

  lemma ReadBack(ws: seq<ParsedWeek>, term: Option<int>)
    requires forall i :: 0 <= i < |ws| ==> ValidWeek(ws[i])
    ensures WeeksOf(LooseAll(ws, term)) == ws
  {
    var r := WeeksOf(LooseAll(ws, term));
    forall i | 0 <= i < |ws| ensures r[i] == ws[i] { }
  }

  lemma {:induction false} SlotAbsent(ts: seq<RawTerm>, t: int, n: int)
    requires !Present(ts, t)
    ensures Slot(ts, t, n) == None
  {
    if ts != [] {
      var init := ts[..|ts| - 1];
      assert forall i :: 0 <= i < |init| ==> init[i] == ts[i];
      SlotAbsent(init, t, n);
    }
  }

  /** In a canonical list the slots of a term are the weeks listed under it. */
  lemma {:induction false} SlotAt(ts: seq<ParsedTerm>, i: nat, n: int)
    requires Canonical(ts) && i < |ts|
    ensures Slot(RawTerms(ts), ts[i].term, n) == FirstWeek(ts[i].weeks, n)
  {
    var init, last := ts[..|ts| - 1], ts[|ts| - 1];
    assert RawTerms(ts)[..|ts| - 1] == RawTerms(init);
    ReadBack(last.weeks, None);
    if i < |init| {
      SlotAt(init, i, n);
      assert last.term != ts[i].term;
    } else {
      SlotAbsent(RawTerms(init), last.term, n);
    }
  }

  // ---------------------------------------------------------------- canonical lists are determined by their table

  lemma {:induction false} WeeksUnique(a: seq<ParsedWeek>, b: seq<ParsedWeek>)
    requires InWeekOrder(a) && InWeekOrder(b)
    requires forall n :: FirstWeek(a, n) == FirstWeek(b, n)
    ensures a == b
  {
    if a != [] { FirstWeekAt(a, |a| - 1); FirstWeekFound(b, a[|a| - 1].weekNumber); }
    if b != [] { FirstWeekAt(b, |b| - 1); FirstWeekFound(a, b[|b| - 1].weekNumber); }
    if a != [] {
      var ia, ib, x, y := a[..|a| - 1], b[..|b| - 1], a[|a| - 1], b[|b| - 1];
      assert x == y;
      assert forall i :: 0 <= i < |ia| ==> ia[i].weekNumber < x.weekNumber;
      assert forall i :: 0 <= i < |ib| ==> ib[i].weekNumber < x.weekNumber;
      forall n ensures FirstWeek(ia, n) == FirstWeek(ib, n) {
        assert FirstWeek(a, n) == FirstWeek(b, n);
        FirstWeekFound(ia, n);
        FirstWeekFound(ib, n);
      }
      WeeksUnique(ia, ib);
    }
  }

  /** Two canonical lists with the same table are the same list. */
  lemma {:induction false} CanonicalUnique(a: seq<ParsedTerm>, b: seq<ParsedTerm>)
    requires Canonical(a) && Canonical(b)
    requires SameTable(RawTerms(a), RawTerms(b))
    ensures a == b
  {
    hide *;
    SameEnd(a, b);
    if a != [] {
      var ia, ib := a[..|a| - 1], b[..|b| - 1];
      DropLast(a, b);
      CanonicalPrefix(a);
      CanonicalPrefix(b);
      CanonicalUnique(ia, ib);
      assert a == ia + [a[|a| - 1]] && b == ib + [b[|b| - 1]];
    }
  }

  lemma CanonicalPrefix(a: seq<ParsedTerm>)
    requires Canonical(a) && a != []
    ensures Canonical(a[..|a| - 1])
  {
    hide CanonicalWeeks;
  }

  /** Both lists are empty, or both end with the same term number. */
  lemma SameEndTerm(a: seq<ParsedTerm>, b: seq<ParsedTerm>)
    requires Canonical(a) && Canonical(b) && forall t :: Present(RawTerms(a), t) <==> Present(RawTerms(b), t)
    ensures a == [] <==> b == []
    ensures a != [] ==> a[|a| - 1].term == b[|b| - 1].term
  {
    hide RawTerms, Present, CanonicalWeeks;
    if a != [] { LastPresent(a); PresentTerm(b, a[|a| - 1].term); }
    if b != [] { LastPresent(b); PresentTerm(a, b[|b| - 1].term); }
  }

  lemma SameEnd(a: seq<ParsedTerm>, b: seq<ParsedTerm>)
    requires Canonical(a) && Canonical(b) && SameTable(RawTerms(a), RawTerms(b))
    ensures a == [] <==> b == []
    ensures a != [] ==> a[|a| - 1] == b[|b| - 1]
  {
    hide RawTerms, Present, Slot, FirstWeek, InWeekOrder, ValidWeek;
    SameEndTerm(a, b);
    if a != [] {
      var x, y := a[|a| - 1], b[|b| - 1];
      forall n ensures FirstWeek(x.weeks, n) == FirstWeek(y.weeks, n) {
        SlotAt(a, |a| - 1, n);
        SlotAt(b, |b| - 1, n);
      }
      WeeksUnique(x.weeks, y.weeks);
    }
  }

  lemma LastPresent(a: seq<ParsedTerm>)
    requires a != []
    ensures Present(RawTerms(a), a[|a| - 1].term)
  {
    assert RawTerms(a)[|a| - 1].term == Some(a[|a| - 1].term);
  }

  lemma PresentTerm(a: seq<ParsedTerm>, t: int)
    ensures Present(RawTerms(a), t) <==> exists i :: 0 <= i < |a| && a[i].term == t
  {
    if i :| 0 <= i < |a| && a[i].term == t { assert RawTerms(a)[i].term == Some(t); }
  }

  lemma DropLast(a: seq<ParsedTerm>, b: seq<ParsedTerm>)
    requires Canonical(a) && Canonical(b) && a != [] && b != []
    requires a[|a| - 1] == b[|b| - 1]
    requires SameTable(RawTerms(a), RawTerms(b))
    ensures SameTable(RawTerms(a[..|a| - 1]), RawTerms(b[..|b| - 1]))
  {
    hide FirstWeek, WeeksOf, CanonicalWeeks;
    var ia, ib := a[..|a| - 1], b[..|b| - 1];
    var last := a[|a| - 1].term;
    assert RawTerms(a)[..|a| - 1] == RawTerms(ia) && RawTerms(b)[..|b| - 1] == RawTerms(ib);
    forall t ensures Present(RawTerms(ia), t) <==> Present(RawTerms(ib), t) {
      PresentTerm(a, t); PresentTerm(b, t); PresentTerm(ia, t); PresentTerm(ib, t);
      assert Present(RawTerms(a), t) <==> Present(RawTerms(b), t);
    }
    forall t, n ensures Slot(RawTerms(ia), t, n) == Slot(RawTerms(ib), t, n) {
      assert Slot(RawTerms(a), t, n) == Slot(RawTerms(b), t, n);
      if t == last {
        PresentTerm(ia, t); PresentTerm(ib, t);
        SlotAbsent(RawTerms(ia), t, n);
        SlotAbsent(RawTerms(ib), t, n);
      }
    }
  }

  // ---------------------------------------------------------------- the loops of the source

  /** First week of every number, sorted by number. */
  method DedupeWeeks(weeks: seq<ParsedWeek>) returns (r: seq<ParsedWeek>)
    ensures InWeekOrder(r)
    ensures forall i :: 0 <= i < |r| ==> r[i] in weeks
    ensures forall n :: FirstWeek(r, n) == FirstWeek(weeks, n)
  {
    hide FirstWeek, Sorted;
    var byWeek: map<int, ParsedWeek> := map[];
    var order: seq<int> := [];
    NoFirstWeeks();
    for i := 0 to |weeks|
      invariant forall n :: FirstWeek(weeks[..i], n) == if n in byWeek then Some(byWeek[n]) else None
      invariant forall k :: k in order <==> k in byWeek
    {
      FirstWeeksNext(weeks, i);
      if weeks[i].weekNumber !in byWeek {
        order := order + [weeks[i].weekNumber];
        byWeek := byWeek[weeks[i].weekNumber := weeks[i]];
      }
    }
    assert weeks[..|weeks|] == weeks;
    var keys := Sorted(order);
    r := [];
    for j := 0 to |keys|
      invariant |r| == j
      invariant forall i :: 0 <= i < j ==> r[i].weekNumber == keys[i] && FirstWeek(weeks, keys[i]) == Some(r[i])
      invariant forall i :: 0 <= i < j ==> r[i] in weeks
    {
      var k := keys[j];
      assert k in keys;
      FirstWeekFound(weeks, k);
      r := r + [byWeek[k]];
    }
    FirstOfEach(weeks, keys, r);
  }

  lemma NoFirstWeeks()
    ensures forall n :: FirstWeek([], n) == None
  {
  }

  lemma FirstWeeksNext(weeks: seq<ParsedWeek>, i: nat)
    requires i < |weeks|
    ensures forall n :: FirstWeek(weeks[..i + 1], n) ==
              OrElse(FirstWeek(weeks[..i], n), if weeks[i].weekNumber == n then Some(weeks[i]) else None)
  {
    assert weeks[..i + 1][..i] == weeks[..i];
  }

  lemma FirstOfEach(weeks: seq<ParsedWeek>, keys: seq<int>, r: seq<ParsedWeek>)
    requires InWeekOrder(r) && |r| == |keys|
    requires forall i :: 0 <= i < |r| ==> r[i].weekNumber == keys[i] && FirstWeek(weeks, keys[i]) == Some(r[i])
    requires forall n :: FirstWeek(weeks, n).Some? ==> n in keys
    ensures forall n :: FirstWeek(r, n) == FirstWeek(weeks, n)
  {
    hide FirstWeek;
    forall n ensures FirstWeek(r, n) == FirstWeek(weeks, n) {
      FirstWeekFound(r, n);
      if FirstWeek(weeks, n).Some? {
        var i :| 0 <= i < |keys| && keys[i] == n;
        FirstWeekAt(r, i);
      }
    }
  }

  ghost function Bucket(byTerm: map<int, seq<ParsedWeek>>, k: int): seq<ParsedWeek> {
    if k in byTerm then byTerm[k] else []
  }

  ghost predicate ValidBuckets(byTerm: map<int, seq<ParsedWeek>>) {
    forall k, i :: k in byTerm && 0 <= i < |byTerm[k]| ==> ValidWeek(byTerm[k][i])
  }

  /** `r` is the canonical list of the weeks collected under each term. */
  ghost predicate Lists(r: seq<ParsedTerm>, byTerm: map<int, seq<ParsedWeek>>) {
    && Canonical(r)
    && (forall t :: Present(RawTerms(r), t) <==> t in byTerm)
    && (forall t, n :: Slot(RawTerms(r), t, n) == FirstWeek(Bucket(byTerm, t), n))
  }

  /** `[...byTerm.entries()].sort(...).map(([term, weeks]) => ({ term, weeks: dedupeWeeks(weeks) }))` */
  method ListByTerm(byTerm: map<int, seq<ParsedWeek>>, order: seq<int>) returns (r: seq<ParsedTerm>)
    requires forall k :: k in order <==> k in byTerm
    requires ValidBuckets(byTerm)
    ensures Lists(r, byTerm)
  {
    hide Sorted, FirstWeek, ValidWeek, InWeekOrder, CanonicalWeeks, Canonical;
    var keys := Sorted(order);
    r := [];
    NothingCanonical();
    for j := 0 to |keys|
      invariant |r| == j && Canonical(r)
      invariant forall i :: 0 <= i < j ==> r[i].term == keys[i] && keys[i] in byTerm
      invariant forall i, n :: 0 <= i < j ==> FirstWeek(r[i].weeks, n) == FirstWeek(byTerm[r[i].term], n)
    {
      var k := keys[j];
      assert k in keys;
      var weeks := DedupeWeeks(byTerm[k]);
      DedupedIsCanonical(byTerm[k], weeks);
      CanonicalNext(r, ParsedTerm(k, weeks));
      r := r + [ParsedTerm(k, weeks)];
    }
    Listed(r, keys, byTerm);
  }

  lemma NothingCanonical()
    ensures Canonical([])
  {
  }

  lemma DedupedIsCanonical(bucket: seq<ParsedWeek>, weeks: seq<ParsedWeek>)
    requires forall i :: 0 <= i < |bucket| ==> ValidWeek(bucket[i])
    requires InWeekOrder(weeks) && forall i :: 0 <= i < |weeks| ==> weeks[i] in bucket
    ensures CanonicalWeeks(weeks)
  {
    hide ValidWeek;
  }

  lemma CanonicalNext(ts: seq<ParsedTerm>, t: ParsedTerm)
    requires Canonical(ts) && CanonicalWeeks(t.weeks) && forall i :: 0 <= i < |ts| ==> ts[i].term < t.term
    ensures Canonical(ts + [t])
  {
    hide CanonicalWeeks;
  }

  lemma Listed(r: seq<ParsedTerm>, keys: seq<int>, byTerm: map<int, seq<ParsedWeek>>)
    requires Canonical(r) && |r| == |keys|
    requires forall k :: k in keys <==> k in byTerm
    requires forall i :: 0 <= i < |r| ==> r[i].term == keys[i] && keys[i] in byTerm
    requires forall i, n :: 0 <= i < |r| ==> FirstWeek(r[i].weeks, n) == FirstWeek(byTerm[r[i].term], n)
    ensures Lists(r, byTerm)
  {
    forall t ensures Present(RawTerms(r), t) <==> t in byTerm {
      PresentTerm(r, t);
      if t in keys { var i :| 0 <= i < |keys| && keys[i] == t; assert r[i].term == t; }
    }
    forall t, n ensures Slot(RawTerms(r), t, n) == FirstWeek(Bucket(byTerm, t), n) {
      PresentTerm(r, t);
      if i :| 0 <= i < |r| && r[i].term == t { SlotAt(r, i, n); } else { SlotAbsent(RawTerms(r), t, n); }
    }
  }

  /** The weeks collected under each term say what the terms read so far say. */
  ghost predicate Collects(byTerm: map<int, seq<ParsedWeek>>, ts: seq<RawTerm>) {
    && ValidBuckets(byTerm)
    && (forall t :: Present(ts, t) <==> t in byTerm)
    && (forall t, n :: Slot(ts, t, n) == FirstWeek(Bucket(byTerm, t), n))
  }

  lemma CollectsNumbered(byTerm: map<int, seq<ParsedWeek>>, ts: seq<RawTerm>, term: RawTerm)
    requires Collects(byTerm, ts) && term.term.Some?
    ensures var key := term.term.value;
            Collects(byTerm[key := Bucket(byTerm, key) + WeeksOf(term.weeks)], ts + [term])
  {
    hide FirstWeek;
    var key, more, all := term.term.value, WeeksOf(term.weeks), ts + [term];
    var after := byTerm[key := Bucket(byTerm, key) + more];
    assert all[..|all| - 1] == ts;
    forall t ensures Present(all, t) <==> t in after { PresentConcat(ts, [term], t); assert [term][0] == term; }
    forall t, n ensures Slot(all, t, n) == FirstWeek(Bucket(after, t), n) {
      assert Slot(ts, t, n) == FirstWeek(Bucket(byTerm, t), n);
      FirstWeekConcat(Bucket(byTerm, key), more, n);
    }
  }

  lemma CollectsSkipped(byTerm: map<int, seq<ParsedWeek>>, ts: seq<RawTerm>, term: RawTerm)
    requires Collects(byTerm, ts) && term.term.None?
    ensures Collects(byTerm, ts + [term])
  {
    hide FirstWeek;
    var all := ts + [term];
    assert all[..|all| - 1] == ts;
    forall t ensures Present(all, t) <==> t in byTerm { PresentConcat(ts, [term], t); }
    forall t, n ensures Slot(all, t, n) == FirstWeek(Bucket(byTerm, t), n) {
      assert Slot(ts, t, n) == FirstWeek(Bucket(byTerm, t), n);
    }
  }

  lemma CollectedIsMerge(base: seq<RawTerm>, incoming: seq<RawTerm>, byTerm: map<int, seq<ParsedWeek>>, r: seq<ParsedTerm>)
    requires Collects(byTerm, base + incoming) && Lists(r, byTerm)
    ensures IsMerge(base, incoming, r)
  {
    hide FirstWeek, Slot, Canonical;
    forall t ensures Present(RawTerms(r), t) <==> Present(base, t) || Present(incoming, t) {
      PresentConcat(base, incoming, t);
    }
    forall t, n ensures Slot(RawTerms(r), t, n) == OrElse(Slot(base, t, n), Slot(incoming, t, n)) {
      SlotConcat(base, incoming, t, n);
      assert Slot(base + incoming, t, n) == FirstWeek(Bucket(byTerm, t), n);
    }
  }

  method MergeParsedTerms(base: seq<RawTerm>, incoming: seq<RawTerm>) returns (r: seq<ParsedTerm>)
    ensures IsMerge(base, incoming, r)
  {
    hide Collects, Lists, IsMerge;
    var all := base + incoming;
    var byTerm: map<int, seq<ParsedWeek>> := map[];
    var order: seq<int> := [];
    NothingCollected(all);
    for i := 0 to |all|
      invariant forall k :: k in order <==> k in byTerm
      invariant Collects(byTerm, all[..i])
    {
      var term := all[i];
      assert all[..i + 1] == all[..i] + [term];
      if term.term.Some? {
        var key := term.term.value;
        var existing := if key in byTerm then byTerm[key] else [];
        CollectsNumbered(byTerm, all[..i], term);
        if key !in byTerm { order := order + [key]; }
        byTerm := byTerm[key := existing + WeeksOf(term.weeks)];
      } else {
        CollectsSkipped(byTerm, all[..i], term);
      }
    }
    assert all[..|all|] == all;
    CollectsValid(byTerm, all);
    r := ListByTerm(byTerm, order);
    CollectedIsMerge(base, incoming, byTerm, r);
  }

  lemma NothingCollected(all: seq<RawTerm>)
    ensures Collects(map[], all[..0])
  {
  }

  lemma CollectsValid(byTerm: map<int, seq<ParsedWeek>>, ts: seq<RawTerm>)
    requires Collects(byTerm, ts)
    ensures ValidBuckets(byTerm)
  {
  }
}
