/**
 The top-up of a MERGED scheme of work: the model's weeks are checked, then library topics that are missing are appended
 (src/ai/ai-curriculum-pipeline.service.ts).
 */
module SchemeTopUp {
  import opened Prelude

  datatype Week = Week(weekNumber: int, stableKey: string, topic: string, learningOutcomes: seq<string>)

  /** A library topic that is not deprecated. */
  datatype Topic = Topic(stableKey: string, title: string, learningOutcomes: seq<string>, order: int, weekNumber: int)

  // ---------------------------------------------------------------- the check before the top-up

  datatype Problem = DuplicateWeekNumbers | MissingTopicOrOutcomes

  ghost predicate NumbersDistinct(weeks: seq<Week>) {
    forall i, j :: 0 <= i < j < |weeks| ==> weeks[i].weekNumber != weeks[j].weekNumber
  }

  predicate Complete(w: Week) { w.topic != "" && w.learningOutcomes != [] }

  ghost predicate AllComplete(weeks: seq<Week>) { forall i :: 0 <= i < |weeks| ==> Complete(weeks[i]) }

  method CheckWeeks(weeks: seq<Week>) returns (problem: Option<Problem>)
    ensures problem == Some(DuplicateWeekNumbers) <==> !NumbersDistinct(weeks)
    ensures problem == None <==> NumbersDistinct(weeks) && AllComplete(weeks)
    ensures problem == Some(MissingTopicOrOutcomes) <==>
              NumbersDistinct(weeks) && exists i :: 0 <= i < |weeks| && (weeks[i].topic == "" || weeks[i].learningOutcomes == [])
  {
    var numbers: set<int> := {};
    var repeated := false;
    for i := 0 to |weeks|
      invariant forall n :: n in numbers <==> exists j :: 0 <= j < i && weeks[j].weekNumber == n
      invariant repeated <==> !NumbersDistinct(weeks[..i])
    {
      RepeatedNext(weeks, i);
      if weeks[i].weekNumber in numbers { repeated := true; }
      numbers := numbers + {weeks[i].weekNumber};
    }
    assert weeks[..|weeks|] == weeks;
    if repeated { return Some(DuplicateWeekNumbers); }
    for i := 0 to |weeks|
      invariant forall j :: 0 <= j < i ==> Complete(weeks[j])
    {
      if !Complete(weeks[i]) { return Some(MissingTopicOrOutcomes); }
    }
    return None;
  }

  lemma RepeatedNext(weeks: seq<Week>, i: nat)
    requires i < |weeks|
    ensures NumbersDistinct(weeks[..i + 1]) <==>
              NumbersDistinct(weeks[..i]) && forall j :: 0 <= j < i ==> weeks[j].weekNumber != weeks[i].weekNumber
  {
    var before, after := weeks[..i], weeks[..i + 1];
    assert after == before + [weeks[i]];
    forall j | 0 <= j < i ensures before[j] == weeks[j] && after[j] == weeks[j] { }
  }

  // ---------------------------------------------------------------- the topics that must be covered

  /** `order || weekNumber` */
  function Rank(t: Topic): int { if t.order != 0 then t.order else t.weekNumber }

  predicate Ascending(ts: seq<Topic>) {
    forall i, j :: 0 <= i < j < |ts| ==> Rank(ts[i]) <= Rank(ts[j])
  }

  /** The topics of one rank, in order. */
  function WithRank(ts: seq<Topic>, r: int): seq<Topic> {
    if ts == [] then [] else WithRank(ts[..|ts| - 1], r) + if Rank(ts[|ts| - 1]) == r then [ts[|ts| - 1]] else []
  }

  function Place(ts: seq<Topic>, t: Topic): seq<Topic> {
    if ts == [] || Rank(ts[|ts| - 1]) <= Rank(t) then ts + [t] else Place(ts[..|ts| - 1], t) + [ts[|ts| - 1]]
  }

  /** `[...topics].sort(...)`, which is stable. */
  function SortedByRank(ts: seq<Topic>): seq<Topic> {
    if ts == [] then [] else Place(SortedByRank(ts[..|ts| - 1]), ts[|ts| - 1])
  }

  lemma {:induction false} PlaceMember(ts: seq<Topic>, t: Topic, x: Topic)
    ensures x in Place(ts, t) <==> x in ts || x == t
  {
    if ts != [] && Rank(ts[|ts| - 1]) > Rank(t) {
      var init, last := ts[..|ts| - 1], ts[|ts| - 1];
      PlaceMember(init, t, x);
      assert x in ts <==> x in init || x == last;
    }
  }

  lemma {:induction false} PlaceAscending(ts: seq<Topic>, t: Topic)
    requires Ascending(ts)
    ensures Ascending(Place(ts, t)) && |Place(ts, t)| == |ts| + 1
  {
    if ts != [] && Rank(ts[|ts| - 1]) > Rank(t) {
      var init, last := ts[..|ts| - 1], ts[|ts| - 1];
      PlaceAscending(init, t);
      var placed := Place(init, t);
      forall i | 0 <= i < |placed| ensures Rank(placed[i]) <= Rank(last) {
        assert placed[i] in placed;
        PlaceMember(init, t, placed[i]);
      }
    }
  }

  lemma {:induction false} PlaceKeepsRanks(ts: seq<Topic>, t: Topic, r: int)
    ensures WithRank(Place(ts, t), r) == WithRank(ts + [t], r)
  {
    assert (ts + [t])[..|ts|] == ts;
    if ts != [] && Rank(ts[|ts| - 1]) > Rank(t) {
      var init, last := ts[..|ts| - 1], ts[|ts| - 1];
      PlaceKeepsRanks(init, t, r);
      var placed := Place(init, t);
      assert (placed + [last])[..|placed|] == placed;
      assert (init + [t])[..|init|] == init;
    }
  }

  /** Sorting keeps, for each rank, its topics in their original order. */
  lemma {:induction false} SortIsStable(ts: seq<Topic>, r: int)
    ensures Ascending(SortedByRank(ts)) && |SortedByRank(ts)| == |ts|
    ensures WithRank(SortedByRank(ts), r) == WithRank(ts, r)
  {
    if ts != [] {
      var init, last := ts[..|ts| - 1], ts[|ts| - 1];
      SortIsStable(init, r);
      PlaceAscending(SortedByRank(init), last);
      PlaceKeepsRanks(SortedByRank(init), last, r);
      assert (SortedByRank(init) + [last])[..|init|] == SortedByRank(init);
    }
  }

  lemma RankNext(ts: seq<Topic>, r: int)
    requires ts != []
    ensures var init, last := ts[..|ts| - 1], ts[|ts| - 1];
            WithRank(ts, r) == if Rank(last) == r then WithRank(init, r) + [last] else WithRank(init, r)
  {
  }

  lemma SameLast<T>(a: seq<T>, x: T, b: seq<T>, y: T)
    requires a + [x] == b + [y]
    ensures a == b && x == y
  {
    assert (a + [x])[..|a|] == a && (b + [y])[..|b|] == b;
    assert (a + [x])[|a|] == x && (b + [y])[|b|] == y;
  }

  /** Only one ascending order has given topics of each rank: any stable sort yields it. */
  lemma {:induction false} StableSortUnique(a: seq<Topic>, b: seq<Topic>)
    requires Ascending(a) && Ascending(b) && forall r :: WithRank(a, r) == WithRank(b, r)
    ensures a == b
  {
    assert a != [] ==> WithRank(b, Rank(a[|a| - 1])) == WithRank(a, Rank(a[|a| - 1])) != [];
    assert b != [] ==> WithRank(a, Rank(b[|b| - 1])) == WithRank(b, Rank(b[|b| - 1])) != [];
    assert a == [] <==> b == [];
    if a != [] {
      hide WithRank;
      var x, y, initA, initB := a[|a| - 1], b[|b| - 1], a[..|a| - 1], b[..|b| - 1];
      RankNext(a, Rank(x));
      RankNext(b, Rank(y));
      assert WithRank(a, Rank(x)) == WithRank(b, Rank(x)) && WithRank(a, Rank(y)) == WithRank(b, Rank(y));
      if Rank(x) < Rank(y) { LastOfRank(a, Rank(y)); }
      if Rank(y) < Rank(x) { LastOfRank(b, Rank(x)); }
      assert Rank(x) == Rank(y);
      SameLast(WithRank(initA, Rank(x)), x, WithRank(initB, Rank(y)), y);
      forall r ensures WithRank(initA, r) == WithRank(initB, r) {
        assert WithRank(a, r) == WithRank(b, r);
        RankNext(a, r);
        RankNext(b, r);
      }
      StableSortUnique(initA, initB);
      assert a == initA + [x] && b == initB + [y];
    }
  }

  lemma {:induction false} LastOfRank(ts: seq<Topic>, r: int)
    requires Ascending(ts) && ts != [] && r > Rank(ts[|ts| - 1])
    ensures WithRank(ts, r) == []
  {
    if |ts| > 1 { LastOfRank(ts[..|ts| - 1], r); }
  }

  function Ceil(n: int, d: int): int
    requires d > 0
  {
    -((-n) / d)
  }

  /** How many library topics must be covered; the weight is a percentage. */
  function KeepCount(n: nat, weight: Option<int>): int {
    var share := Ceil(n * weight.GetOr(70), 100);
    if share > 1 then share else 1
  }

  /** Covering at least the weight's share, and at most all, of the library. */
  lemma KeepCountIsShare(n: nat, weight: Option<int>)
    requires n > 0 && 0 <= weight.GetOr(70) <= 100
    ensures 1 <= KeepCount(n, weight) <= n
    ensures 100 * KeepCount(n, weight) >= n * weight.GetOr(70)
    ensures KeepCount(n, weight) > 1 ==> 100 * (KeepCount(n, weight) - 1) < n * weight.GetOr(70)
  {
    var w := weight.GetOr(70);
    PartOf(n, w);
    CeilIsLeast(n * w);
    if Ceil(n * w, 100) <= 1 { assert 100 * 1 >= n * w; }
  }

  lemma PartOf(n: nat, w: int)
    requires 0 <= w <= 100
    ensures 0 <= n * w <= n * 100
  {
  }

  lemma CeilIsLeast(x: int)
    ensures 100 * Ceil(x, 100) >= x && 100 * (Ceil(x, 100) - 1) < x
  {
  }

  /** `.slice(0, count)` */
  function Slice(ts: seq<Topic>, count: int): seq<Topic> {
    if count < 0 then [] else if count > |ts| then ts else ts[..count]
  }

  function Required(topics: seq<Topic>, weight: Option<int>): seq<Topic> {
    Slice(SortedByRank(topics), KeepCount(|topics|, weight))
  }

  /** The library is gone through by order, and by week number where there is no order. */
  lemma SortedByOrder(topics: seq<Topic>, i: nat, j: nat)
    requires i < j < |SortedByRank(topics)|
    ensures var (s, t) := (SortedByRank(topics)[i], SortedByRank(topics)[j]);
            (if s.order == 0 then s.weekNumber else s.order) <= (if t.order == 0 then t.weekNumber else t.order)
  {
    SortIsStable(topics, 0);
  }

  /** Required are the first topics of that order, as few as reach the weight's share of the library but at least one. */
  lemma RequiredAre(topics: seq<Topic>, weight: Option<int>)
    requires topics != []
    ensures var (required, n) := (Required(topics, weight), |topics|);
            var w := if weight.Some? then weight.value else 70;
            && required <= SortedByRank(topics)
            && 1 <= |required| <= n
            && (|required| == n || 100 * |required| >= n * w)
            && (|required| > 1 ==> 100 * (|required| - 1) < n * w)
  {
    hide SortedByRank;
    SortIsStable(topics, 0);
    CeilIsLeast(|topics| * weight.GetOr(70));
  }

  // ---------------------------------------------------------------- appending what is missing

  /** The weeks, and the keys that they have; an empty key is none. */
  datatype Coverage = Coverage(weeks: seq<Week>, have: set<string>)

  function KeysOf(weeks: seq<Week>): set<string> {
    set i | 0 <= i < |weeks| && weeks[i].stableKey != "" :: weeks[i].stableKey
  }

  function WeekFor(t: Topic, weekNumber: int): Week { Week(weekNumber, t.stableKey, t.title, t.learningOutcomes) }

  function Covered(weeks: seq<Week>, required: seq<Topic>): Coverage {
    if required == [] then Coverage(weeks, KeysOf(weeks))
    else
      var before, t := Covered(weeks, required[..|required| - 1]), required[|required| - 1];
      if t.stableKey in before.have then before
      else Coverage(before.weeks + [WeekFor(t, |before.weeks| + 1)], before.have + {t.stableKey})
  }

  predicate IsKeyOf(required: seq<Topic>, key: string) { exists i :: 0 <= i < |required| && required[i].stableKey == key }

  lemma IsKeyOfNext(required: seq<Topic>, key: string)
    requires required != []
    ensures IsKeyOf(required, key) <==>
              IsKeyOf(required[..|required| - 1], key) || required[|required| - 1].stableKey == key
  {
    var init := required[..|required| - 1];
    if IsKeyOf(required, key) {
      var i :| 0 <= i < |required| && required[i].stableKey == key;
      assert i < |init| ==> init[i] == required[i];
    }
    if IsKeyOf(init, key) {
      var i :| 0 <= i < |init| && init[i].stableKey == key;
      assert required[i] == init[i];
    }
  }

  /** An appended week stands for a required topic that the weeks before it did not have. */
  ghost predicate IsAppended(weeks: seq<Week>, required: seq<Topic>, after: seq<Week>, i: nat)
    requires i < |after|
  {
    && after[i].weekNumber == i + 1
    && after[i].stableKey !in KeysOf(weeks)
    && exists t :: 0 <= t < |required| && after[i] == WeekFor(required[t], i + 1)
  }

  /** The key `key` was appended, or the model had it. */
  ghost predicate Gained(weeks: seq<Week>, after: seq<Week>, key: string) {
    key in KeysOf(weeks) || exists i :: |weeks| <= i < |after| && after[i].stableKey == key
  }

  lemma {:induction false} AppendedHeld(weeks: seq<Week>, required: seq<Topic>)
    ensures var after := Covered(weeks, required);
            weeks <= after.weeks && forall key :: key in after.have <==> Gained(weeks, after.weeks, key)
  {
    if required != [] {
      var init, t := required[..|required| - 1], required[|required| - 1];
      AppendedHeld(weeks, init);
      var before, after := Covered(weeks, init), Covered(weeks, required);
      forall key ensures key in after.have <==> Gained(weeks, after.weeks, key) {
        assert key in before.have <==> Gained(weeks, before.weeks, key);
        if i :| |weeks| <= i < |before.weeks| && before.weeks[i].stableKey == key {
          assert after.weeks[i].stableKey == key;
        }
        if t.stableKey !in before.have {
          assert after.weeks[|before.weeks|].stableKey == t.stableKey;
        }
      }
    }
  }

  /**
   The model's weeks stay in front unchanged; what is appended are required topics, numbered by position, with keys
   that are new and all different.
   */
  lemma {:induction false} ModelWeeksKept(weeks: seq<Week>, required: seq<Topic>)
    ensures var after := Covered(weeks, required);
            && weeks <= after.weeks
            && (forall i: nat :: |weeks| <= i < |after.weeks| ==> IsAppended(weeks, required, after.weeks, i))
            && (forall i, j :: |weeks| <= i < j < |after.weeks| ==> after.weeks[i].stableKey != after.weeks[j].stableKey)
  {
    if required != [] {
      var init, t := required[..|required| - 1], required[|required| - 1];
      ModelWeeksKept(weeks, init);
      var before, after := Covered(weeks, init), Covered(weeks, required);
      AppendedHeld(weeks, init);
      forall i: nat | |weeks| <= i < |after.weeks| ensures IsAppended(weeks, required, after.weeks, i) {
        if i < |before.weeks| {
          assert IsAppended(weeks, init, before.weeks, i);
          var u :| 0 <= u < |init| && before.weeks[i] == WeekFor(init[u], i + 1);
          assert required[u] == init[u];
        } else {
          assert after.weeks[i] == WeekFor(required[|required| - 1], i + 1);
        }
      }
    }
  }

  /** An appended week carries the key, the title and the outcomes of a required topic. */
  lemma AppendedFromLibrary(weeks: seq<Week>, required: seq<Topic>, i: nat)
    requires |weeks| <= i < |Covered(weeks, required).weeks|
    ensures var w := Covered(weeks, required).weeks[i];
            && w.weekNumber == i + 1
            && exists t :: t in required && w.stableKey == t.stableKey && w.topic == t.title && w.learningOutcomes == t.learningOutcomes
  {
    hide Covered, KeysOf;
    ModelWeeksKept(weeks, required);
    var after := Covered(weeks, required).weeks;
    assert IsAppended(weeks, required, after, i);
    var t :| 0 <= t < |required| && after[i] == WeekFor(required[t], i + 1);
    assert required[t] in required;
  }

  /** Afterwards the keys held are those of the model and those required. */
  lemma {:induction false} EveryRequiredKeyHeld(weeks: seq<Week>, required: seq<Topic>, key: string)
    ensures key in Covered(weeks, required).have <==> key in KeysOf(weeks) || IsKeyOf(required, key)
  {
    if required != [] {
      EveryRequiredKeyHeld(weeks, required[..|required| - 1], key);
      IsKeyOfNext(required, key);
    }
  }

  lemma KeysHeld(weeks: seq<Week>, required: seq<Topic>, key: string)
    ensures key in KeysOf(Covered(weeks, required).weeks) <==> key != "" && key in Covered(weeks, required).have
  {
    hide Covered;
    AppendedHeld(weeks, required);
    var after := Covered(weeks, required);
    assert key in after.have <==> Gained(weeks, after.weeks, key);
    if key in KeysOf(after.weeks) {
      var i :| 0 <= i < |after.weeks| && after.weeks[i].stableKey != "" && key == after.weeks[i].stableKey;
      if i < |weeks| { assert weeks[i] == after.weeks[i]; }
    }
    if key != "" && key in after.have {
      if key in KeysOf(weeks) {
        var i :| 0 <= i < |weeks| && weeks[i].stableKey != "" && key == weeks[i].stableKey;
        assert weeks[i] == after.weeks[i];
      }
    }
  }

  /** Every required topic has a week. */
  lemma RequiredTopicsPresent(weeks: seq<Week>, required: seq<Topic>, t: nat)
    requires t < |required|
    ensures var after := Covered(weeks, required).weeks;
            exists i :: 0 <= i < |after| && after[i].stableKey == required[t].stableKey
  {
    hide Covered;
    AppendedHeld(weeks, required);
    var after, key := Covered(weeks, required), required[t].stableKey;
    assert key in after.have <==> Gained(weeks, after.weeks, key);
    EveryRequiredKeyHeld(weeks, required, key);
    assert IsKeyOf(required, key);
    if key in KeysOf(weeks) {
      var i :| 0 <= i < |weeks| && weeks[i].stableKey != "" && key == weeks[i].stableKey;
      assert weeks[i] == after.weeks[i];
    }
  }

  lemma {:induction false} NothingToAppend(weeks: seq<Week>, required: seq<Topic>)
    requires forall i :: 0 <= i < |required| ==> required[i].stableKey in KeysOf(weeks)
    ensures Covered(weeks, required) == Coverage(weeks, KeysOf(weeks))
  {
    if required != [] { NothingToAppend(weeks, required[..|required| - 1]); }
  }

  /** The keys that are required, and the required ones that the model's weeks lack. */
  function RequiredKeys(required: seq<Topic>): set<string> {
    set i | 0 <= i < |required| :: required[i].stableKey
  }

  function MissingKeys(weeks: seq<Week>, required: seq<Topic>): set<string> {
    RequiredKeys(required) - KeysOf(weeks)
  }

  lemma RequiredKeysNext(required: seq<Topic>)
    requires required != []
    ensures RequiredKeys(required) == RequiredKeys(required[..|required| - 1]) + {required[|required| - 1].stableKey}
  {
    forall key ensures key in RequiredKeys(required) <==>
                       key in RequiredKeys(required[..|required| - 1]) || key == required[|required| - 1].stableKey
    {
      IsKeyOfNext(required, key);
      assert IsKeyOf(required, key) <==> key in RequiredKeys(required);
      assert IsKeyOf(required[..|required| - 1], key) <==> key in RequiredKeys(required[..|required| - 1]);
    }
  }

  lemma AddMissing<T>(base: set<T>, had: set<T>, x: T)
    ensures |base + {x} - had| == |base - had| + if x in base || x in had then 0 else 1
  {
    if x in base || x in had {
      assert base + {x} - had == base - had;
    } else {
      assert base + {x} - had == (base - had) + {x};
    }
  }

  /** One week is appended for each missing key. */
  lemma {:induction false} AppendedCount(weeks: seq<Week>, required: seq<Topic>)
    ensures |Covered(weeks, required).weeks| == |weeks| + |MissingKeys(weeks, required)|
  {
    hide KeysOf, RequiredKeys;
    if required == [] {
      NoneMissing(weeks);
    } else {
      var init, key := required[..|required| - 1], required[|required| - 1].stableKey;
      AppendedCount(weeks, init);
      EveryRequiredKeyHeld(weeks, init, key);
      assert IsKeyOf(init, key) <==> key in RequiredKeys(init) by { KeyOfIsRequired(init, key); }
      RequiredKeysNext(required);
      AddMissing(RequiredKeys(init), KeysOf(weeks), key);
    }
  }

  lemma NoneMissing(weeks: seq<Week>)
    ensures MissingKeys(weeks, []) == {}
  {
  }

  lemma KeyOfIsRequired(required: seq<Topic>, key: string)
    ensures IsKeyOf(required, key) <==> key in RequiredKeys(required)
  {
  }

  /** A second pass appends nothing, unless the library requires a topic without a key. */
  lemma SecondPassAppendsNothing(weeks: seq<Week>, required: seq<Topic>)
    ensures var once := Covered(weeks, required).weeks;
            Covered(once, required).weeks == once <==> !IsKeyOf(required, "")
  {
    hide Covered, KeysOf;
    var once := Covered(weeks, required).weeks;
    if IsKeyOf(required, "") {
      EveryRequiredKeyHeld(once, required, "");
      KeysHeld(weeks, required, "");
      AppendedHeld(once, required);
      assert "" !in KeysOf(once);
      assert Gained(once, Covered(once, required).weeks, "");
      assert Covered(once, required).weeks != once;
    } else {
      forall i | 0 <= i < |required| ensures required[i].stableKey in KeysOf(once) {
        var key := required[i].stableKey;
        assert IsKeyOf(required, key);
        EveryRequiredKeyHeld(weeks, required, key);
        KeysHeld(weeks, required, key);
      }
      NothingToAppend(once, required);
    }
  }

  // ---------------------------------------------------------------- what the check no longer covers

  /**
   The check is not repeated after the top-up. The week numbers are still distinct exactly when the model gave none of
   its weeks a number that an appended week gets: those after its own count of weeks, one for each missing key.
   */
  lemma NumbersStillDistinct(weeks: seq<Week>, required: seq<Topic>)
    requires NumbersDistinct(weeks)
    ensures NumbersDistinct(Covered(weeks, required).weeks) <==>
              forall i :: 0 <= i < |weeks| ==>
                !(|weeks| < weeks[i].weekNumber <= |weeks| + |MissingKeys(weeks, required)|)
  {
    hide Covered, MissingKeys;
    ModelWeeksKept(weeks, required);
    AppendedCount(weeks, required);
    var after := Covered(weeks, required).weeks;
    forall i: nat | |weeks| <= i < |after| ensures after[i].weekNumber == i + 1 {
      assert IsAppended(weeks, required, after, i);
    }
    forall i | 0 <= i < |weeks| ensures after[i] == weeks[i] { }
    if i :| 0 <= i < |weeks| && |weeks| < weeks[i].weekNumber <= |after| {
      assert after[i].weekNumber == after[weeks[i].weekNumber - 1].weekNumber;
      assert !NumbersDistinct(after);
    }
  }

  /** The library's keys are distinct in the database. */
  ghost predicate KeysDistinct(required: seq<Topic>) {
    forall i, j :: 0 <= i < j < |required| ==> required[i].stableKey != required[j].stableKey
  }

  lemma MissingTopicAppended(weeks: seq<Week>, required: seq<Topic>, t: nat)
    requires t < |required| && KeysDistinct(required) && required[t].stableKey !in KeysOf(weeks)
    ensures var after := Covered(weeks, required).weeks;
            exists i :: |weeks| <= i < |after| && after[i] == WeekFor(required[t], i + 1)
  {
    hide Covered, KeysOf;
    var after, key := Covered(weeks, required), required[t].stableKey;
    AppendedHeld(weeks, required);
    ModelWeeksKept(weeks, required);
    EveryRequiredKeyHeld(weeks, required, key);
    assert IsKeyOf(required, key);
    assert Gained(weeks, after.weeks, key);
    var i: nat :| |weeks| <= i < |after.weeks| && after.weeks[i].stableKey == key;
    assert IsAppended(weeks, required, after.weeks, i);
    var u :| 0 <= u < |required| && after.weeks[i] == WeekFor(required[u], i + 1);
    assert required[u].stableKey == required[t].stableKey;
  }

  /** Every week is still complete exactly when each library topic that had to be appended is. */
  lemma WeeksStillComplete(weeks: seq<Week>, required: seq<Topic>)
    requires AllComplete(weeks) && KeysDistinct(required)
    ensures AllComplete(Covered(weeks, required).weeks) <==>
              forall t :: 0 <= t < |required| && required[t].stableKey !in KeysOf(weeks) ==> Complete(WeekFor(required[t], 0))
  {
    hide Covered, KeysOf;
    ModelWeeksKept(weeks, required);
    var after := Covered(weeks, required).weeks;
    if AllComplete(after) {
      forall t | 0 <= t < |required| && required[t].stableKey !in KeysOf(weeks) ensures Complete(WeekFor(required[t], 0)) {
        MissingTopicAppended(weeks, required, t);
        var i :| |weeks| <= i < |after| && after[i] == WeekFor(required[t], i + 1);
        assert Complete(after[i]);
      }
    }
    if forall t :: 0 <= t < |required| && required[t].stableKey !in KeysOf(weeks) ==> Complete(WeekFor(required[t], 0)) {
      forall i: nat | i < |after| ensures Complete(after[i]) {
        if i < |weeks| {
          assert after[i] == weeks[i];
        } else {
          assert IsAppended(weeks, required, after, i);
          var t :| 0 <= t < |required| && after[i] == WeekFor(required[t], i + 1);
          assert Complete(WeekFor(required[t], 0));
        }
      }
    }
  }

  /** One week numbered 2 passes the check, and the top-up then appends another week 2. */
  lemma NumbersClashExample()
    ensures var weeks := [Week(2, "a", "Algebra", ["Solve equations"])];
            var topics := [Topic("b", "Geometry", ["Draw angles"], 1, 1)];
            && NumbersDistinct(weeks) && AllComplete(weeks)
            && !NumbersDistinct(Covered(weeks, Required(topics, None)).weeks)
  {
    var weeks := [Week(2, "a", "Algebra", ["Solve equations"])];
    var topics := [Topic("b", "Geometry", ["Draw angles"], 1, 1)];
    assert topics[..0] == [];
    assert SortedByRank(topics) == topics;
    assert KeepCount(1, None) == 1;
    assert Required(topics, None) == topics;
    assert Covered(weeks, topics[..0]) == Coverage(weeks, KeysOf(weeks));
    assert "b" !in KeysOf(weeks);
    var after := Covered(weeks, topics).weeks;
    assert after == weeks + [WeekFor(topics[0], 2)];
    assert after[0].weekNumber == after[1].weekNumber;
  }

  // ---------------------------------------------------------------- the loop

  /** The model's answer, whose list of weeks the top-up extends in place. */
  class GenerationResult {
    var weeks: seq<Week>

    constructor (parsed: seq<Week>)
      ensures weeks == parsed
    {
      weeks := parsed;
    }

    method TopUp(topics: seq<Topic>, weight: Option<int>)
      modifies this
      ensures weeks == Covered(old(weeks), Required(topics, weight)).weeks
    {
      hide KeysOf, Required;
      if |topics| == 0 {
        NothingRequired(weeks, weight);
        return;
      }
      NoKeys();
      var required := Required(topics, weight);
      var have: set<string> := {};
      for i := 0 to |weeks|
        invariant weeks == old(weeks)
        invariant have == KeysOf(weeks[..i])
      {
        KeysNext(weeks, i);
        if weeks[i].stableKey != "" { have := have + {weeks[i].stableKey}; }
      }
      assert weeks[..|weeks|] == weeks;
      for r := 0 to |required|
        invariant Coverage(weeks, have) == Covered(old(weeks), required[..r])
      {
        var req := required[r];
        assert required[..r + 1][..r] == required[..r];
        if req.stableKey !in have {
          weeks := weeks + [WeekFor(req, |weeks| + 1)];
          have := have + {req.stableKey};
        }
      }
      assert required[..|required|] == required;
    }
  }

  lemma NothingRequired(weeks: seq<Week>, weight: Option<int>)
    ensures Required([], weight) == [] && Covered(weeks, []).weeks == weeks
  {
  }

  lemma NoKeys()
    ensures KeysOf([]) == {}
  {
  }

  lemma KeysNext(weeks: seq<Week>, i: nat)
    requires i < |weeks|
    ensures KeysOf(weeks[..i + 1]) == KeysOf(weeks[..i]) + (if weeks[i].stableKey != "" then {weeks[i].stableKey} else {})
  {
    var before, after := weeks[..i], weeks[..i + 1];
    forall key | key in KeysOf(after) ensures key in KeysOf(before) || (weeks[i].stableKey != "" && key == weeks[i].stableKey) {
      var j :| 0 <= j < |after| && after[j].stableKey != "" && key == after[j].stableKey;
      assert j < i ==> before[j] == after[j];
    }
    forall key | key in KeysOf(before) ensures key in KeysOf(after) {
      var j :| 0 <= j < |before| && before[j].stableKey != "" && key == before[j].stableKey;
      assert after[j] == before[j];
    }
    assert after[i] == weeks[i];
  }
}
