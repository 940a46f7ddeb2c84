/** The 39 slots of the year, each mapped from a source or left to be generated. */
module MappedYear {
  import opened Prelude
  import opened ParsedTerms

  datatype SlotStatus = MapFromSource | Generate

  datatype MappedYearSlot = MappedYearSlot(term: int, weekNumber: int, title: Option<string>, status: SlotStatus)

  /** `STANDARD_WEEK_TITLES[week]` */
  function StandardTitle(week: int): Option<string> {
    if week == 7 then Some("Mid-term revision")
    else if week == 12 then Some("End-of-term revision")
    else if week == 13 then Some("Examination")
    else None
  }

  type SlotKey = (int, int)

  predicate InYearGrid(k: SlotKey) {
    1 <= k.0 <= FULL_YEAR_TERMS && 1 <= k.1 <= WEEKS_PER_TERM
  }

  /** The k-th slot of the year, term by term and week by week. */
  function SlotNumber(k: nat): (s: SlotKey)
    requires k < FULL_YEAR_WEEKS
    ensures InYearGrid(s)
  {
    (k / WEEKS_PER_TERM + 1, k % WEEKS_PER_TERM + 1)
  }

  /** Slot numbering is lexicographic, and reaches every slot of the grid exactly once. */
  lemma SlotNumberLexicographic(i: nat, j: nat)
    requires i < FULL_YEAR_WEEKS && j < FULL_YEAR_WEEKS
    ensures i < j <==> SlotNumber(i).0 < SlotNumber(j).0
                       || (SlotNumber(i).0 == SlotNumber(j).0 && SlotNumber(i).1 < SlotNumber(j).1)
  {
    var q, r := i / WEEKS_PER_TERM, i % WEEKS_PER_TERM;
    var u, v := j / WEEKS_PER_TERM, j % WEEKS_PER_TERM;
    assert i == 13 * q + r && j == 13 * u + v;
  }

  function NumberOfSlot(s: SlotKey): (k: nat)
    requires InYearGrid(s)
    ensures k < FULL_YEAR_WEEKS && SlotNumber(k) == s
  {
    (s.0 - 1) * WEEKS_PER_TERM + s.1 - 1
  }

  lemma SlotNumberRoundTrip(k: nat)
    requires k < FULL_YEAR_WEEKS
    ensures NumberOfSlot(SlotNumber(k)) == k
  {
  }

  lemma SlotNumberOf(s: SlotKey)
    requires InYearGrid(s)
    ensures SlotNumber(NumberOfSlot(s)) == s
  {
  }

  lemma ThirteenWeeks(weeks: set<int>)
    requires forall w :: w in weeks <==> 1 <= w <= WEEKS_PER_TERM
    ensures |weeks| == WEEKS_PER_TERM
  {
    var all := {1, 2, 3, 4, 5, 6, 7, 8, 9, 10, 11, 12, 13};
    assert forall w :: w in weeks <==> w in all;
    assert weeks == all;
  }

  // ---------------------------------------------------------------- what the sources say about a slot

  /** The last week of a list that carries number `n`. */
  ghost function LastWeek(ws: seq<ParsedWeek>, n: int): Option<ParsedWeek> {
    if ws == [] then None
    else if ws[|ws| - 1].weekNumber == n then Some(ws[|ws| - 1])
    else LastWeek(ws[..|ws| - 1], n)
  }

  /** The last week that claims the slot. */
  ghost function LastSlot(ts: seq<ParsedTerm>, s: SlotKey): Option<ParsedWeek> {
    if ts == [] then None
    else
      var last := ts[|ts| - 1];
      OrElse(if last.term == s.0 then LastWeek(last.weeks, s.1) else None, LastSlot(ts[..|ts| - 1], s))
  }

  /** Week `j` of term `i` claims the slot. */
  ghost predicate ClaimsSlot(ts: seq<ParsedTerm>, i: nat, j: nat, term: int, week: int)
    requires i < |ts| && j < |ts[i].weeks|
  {
    ts[i].term == term && ts[i].weeks[j].weekNumber == week
  }

  /** Nothing behind week `j` of term `i` claims the slot. */
  ghost predicate NoneBehind(ts: seq<ParsedTerm>, i: nat, j: int, term: int, week: int)
    requires i < |ts|
  {
    && (forall k: nat :: j < k < |ts[i].weeks| ==> !ClaimsSlot(ts, i, k, term, week))
    && (forall h: nat, k: nat :: i < h < |ts| && k < |ts[h].weeks| ==> !ClaimsSlot(ts, h, k, term, week))
  }

  lemma {:induction false} LastWeekAt(ws: seq<ParsedWeek>, j: nat)
    requires j < |ws| && forall k :: j < k < |ws| ==> ws[k].weekNumber != ws[j].weekNumber
    ensures LastWeek(ws, ws[j].weekNumber) == Some(ws[j])
  {
    if j < |ws| - 1 { LastWeekAt(ws[..|ws| - 1], j); }
  }

  lemma {:induction false} LastWeekNone(ws: seq<ParsedWeek>, n: int)
    requires forall k :: 0 <= k < |ws| ==> ws[k].weekNumber != n
    ensures LastWeek(ws, n) == None
  {
    if ws != [] { LastWeekNone(ws[..|ws| - 1], n); }
  }

  /** A slot goes to the week that claims it last, in the order of the terms and of the weeks in each. */
  lemma {:induction false} LastClaimWins(ts: seq<ParsedTerm>, i: nat, j: nat, term: int, week: int)
    requires i < |ts| && j < |ts[i].weeks| && ClaimsSlot(ts, i, j, term, week) && NoneBehind(ts, i, j, term, week)
    ensures LastSlot(ts, (term, week)) == Some(ts[i].weeks[j])
  {
    var n := |ts| - 1;
    var init := ts[..n];
    if i < n {
      forall k: nat | k < |ts[n].weeks| && ts[n].term == term ensures ts[n].weeks[k].weekNumber != week {
        assert !ClaimsSlot(ts, n, k, term, week);
      }
      if ts[n].term == term { LastWeekNone(ts[n].weeks, week); }
      forall h: nat, k: nat | i <= h < n && k < |ts[h].weeks| && !ClaimsSlot(ts, h, k, term, week)
        ensures !ClaimsSlot(init, h, k, term, week) { }
      LastClaimWins(init, i, j, term, week);
    } else {
      forall k | j < k < |ts[i].weeks| ensures ts[i].weeks[k].weekNumber != week { assert !ClaimsSlot(ts, i, k, term, week); }
      LastWeekAt(ts[i].weeks, j);
    }
  }

  ghost predicate SlotIs(slot: MappedYearSlot, s: SlotKey, source: Option<ParsedWeek>) {
    && slot.term == s.0 && slot.weekNumber == s.1
    && (slot.status == MapFromSource <==> source.Some?)
    && slot.title == if source.Some? && source.value.title != "" then Some(source.value.title) else StandardTitle(s.1)
  }

  method BuildMappedYearSlots(terms: seq<ParsedTerm>) returns (slots: seq<MappedYearSlot>)
    ensures |slots| == FULL_YEAR_WEEKS
    ensures forall k :: 0 <= k < FULL_YEAR_WEEKS ==> SlotIs(slots[k], SlotNumber(k), LastSlot(terms, SlotNumber(k)))
  {
    var bySlot: map<SlotKey, ParsedWeek> := map[];
    for i := 0 to |terms|
      invariant forall s: SlotKey :: LastSlot(terms[..i], s) == if s in bySlot then Some(bySlot[s]) else None
    {
      var t := terms[i];
      ghost var before := bySlot;
      for j := 0 to |t.weeks|
        invariant forall s: SlotKey :: (if s in bySlot then Some(bySlot[s]) else None)
                    == OrElse(if t.term == s.0 then LastWeek(t.weeks[..j], s.1) else None,
                              if s in before then Some(before[s]) else None)
      {
        assert t.weeks[..j + 1][..j] == t.weeks[..j];
        bySlot := bySlot[(t.term, t.weeks[j].weekNumber) := t.weeks[j]];
      }
      assert t.weeks[..|t.weeks|] == t.weeks;
      assert terms[..i + 1][..i] == terms[..i];
    }
    assert terms[..|terms|] == terms;
    slots := [];
    for term := 1 to FULL_YEAR_TERMS + 1
      invariant |slots| == WEEKS_PER_TERM * (term - 1)
      invariant forall k :: 0 <= k < |slots| ==> SlotIs(slots[k], SlotNumber(k), LastSlot(terms, SlotNumber(k)))
    {
      for week := 1 to WEEKS_PER_TERM + 1
        invariant |slots| == WEEKS_PER_TERM * (term - 1) + week - 1
        invariant forall k :: 0 <= k < |slots| ==> SlotIs(slots[k], SlotNumber(k), LastSlot(terms, SlotNumber(k)))
      {
        var key := (term, week);
        var source := if key in bySlot then Some(bySlot[key]) else None;
        assert SlotNumber(|slots|) == key;
        slots := slots + [MappedYearSlot(
          term, week,
          if source.Some? && source.value.title != "" then Some(source.value.title) else StandardTitle(week),
          if source.Some? then MapFromSource else Generate)];
      }
    }
  }

  // ---------------------------------------------------------------- several sources together

  lemma {:induction false} LastSlotConcat(a: seq<ParsedTerm>, b: seq<ParsedTerm>, s: SlotKey)
    ensures LastSlot(a + b, s) == OrElse(LastSlot(b, s), LastSlot(a, s))
  {
    if b == [] {
      assert a + b == a;
    } else {
      LastSlotConcat(a, b[..|b| - 1], s);
      assert (a + b)[..|a + b| - 1] == a + b[..|b| - 1];
    }
  }

  lemma {:induction false} LastIsFirst(ws: seq<ParsedWeek>, n: int)
    requires InWeekOrder(ws)
    ensures LastWeek(ws, n) == FirstWeek(ws, n)
  {
    if ws != [] {
      var init, last := ws[..|ws| - 1], ws[|ws| - 1];
      LastIsFirst(init, n);
      FirstWeekFound(init, n);
      assert forall i :: 0 <= i < |init| ==> init[i].weekNumber < last.weekNumber;
    }
  }

  /** Within one canonical source the slot is unambiguous. */
  lemma {:induction false} SlotOfSource(ts: seq<ParsedTerm>, s: SlotKey)
    requires Canonical(ts)
    ensures LastSlot(ts, s) == Slot(RawTerms(ts), s.0, s.1)
  {
    if ts != [] {
      var init, last := ts[..|ts| - 1], ts[|ts| - 1];
      SlotOfSource(init, s);
      assert RawTerms(ts)[..|ts| - 1] == RawTerms(init);
      ReadBack(last.weeks, None);
      LastIsFirst(last.weeks, s.1);
      if last.term == s.0 { PresentTerm(init, s.0); SlotAbsent(RawTerms(init), s.0, s.1); }
    }
  }

  /** `sources.flatMap(normalizeSourceParsedData)` */
  function Concatenated(sources: seq<seq<ParsedTerm>>): seq<ParsedTerm> {
    if sources == [] then [] else Concatenated(sources[..|sources| - 1]) + sources[|sources| - 1]
  }

  /** Across sources the LAST one with the slot wins: the opposite of merging chunks of one source. */
  lemma {:induction false} LastSourceWins(sources: seq<seq<ParsedTerm>>, i: nat, s: SlotKey)
    requires i < |sources|
    requires forall j :: i < j < |sources| ==> LastSlot(sources[j], s) == None
    requires LastSlot(sources[i], s).Some?
    ensures LastSlot(Concatenated(sources), s) == LastSlot(sources[i], s)
  {
    var init := sources[..|sources| - 1];
    LastSlotConcat(Concatenated(init), sources[|sources| - 1], s);
    if i < |init| { LastSourceWins(init, i, s); }
  }

  lemma {:induction false} UnclaimedSlot(sources: seq<seq<ParsedTerm>>, s: SlotKey)
    ensures LastSlot(Concatenated(sources), s) == None <==> forall i :: 0 <= i < |sources| ==> LastSlot(sources[i], s) == None
  {
    if sources != [] {
      var init := sources[..|sources| - 1];
      UnclaimedSlot(init, s);
      LastSlotConcat(Concatenated(init), sources[|sources| - 1], s);
      assert forall i :: 0 <= i < |init| ==> init[i] == sources[i];
    }
  }

  // ---------------------------------------------------------------- counting the mapped slots

  ghost function ClaimedUpTo(terms: seq<ParsedTerm>, n: nat): set<SlotKey>
    requires n <= FULL_YEAR_WEEKS
  {
    set k | 0 <= k < n && LastSlot(terms, SlotNumber(k)).Some? :: SlotNumber(k)
  }

  ghost function ClaimedSlots(terms: seq<ParsedTerm>): set<SlotKey> {
    ClaimedUpTo(terms, FULL_YEAR_WEEKS)
  }

  function CountMapped(slots: seq<MappedYearSlot>): nat {
    if slots == [] then 0
    else CountMapped(slots[..|slots| - 1]) + if slots[|slots| - 1].status == MapFromSource then 1 else 0
  }

  lemma {:induction false} CountMappedPrefix(slots: seq<MappedYearSlot>, terms: seq<ParsedTerm>, n: nat)
    requires n <= |slots| == FULL_YEAR_WEEKS
    requires forall k :: 0 <= k < FULL_YEAR_WEEKS ==> SlotIs(slots[k], SlotNumber(k), LastSlot(terms, SlotNumber(k)))
    ensures CountMapped(slots[..n]) == |ClaimedUpTo(terms, n)|
  {
    hide LastSlot, SlotNumber, ClaimedUpTo;
    if n == 0 {
      NoneClaimed(terms);
    } else {
      CountMappedPrefix(slots, terms, n - 1);
      assert slots[..n][..n - 1] == slots[..n - 1];
      ClaimedNext(terms, n - 1);
      NotClaimedBefore(terms, n - 1);
    }
  }

  lemma NoneClaimed(terms: seq<ParsedTerm>)
    ensures ClaimedUpTo(terms, 0) == {}
  {
  }

  lemma ClaimedNext(terms: seq<ParsedTerm>, n: nat)
    requires n < FULL_YEAR_WEEKS
    ensures var s := SlotNumber(n);
            ClaimedUpTo(terms, n + 1) == ClaimedUpTo(terms, n) + (if LastSlot(terms, s).Some? then {s} else {})
  {
    hide LastSlot, SlotNumber;
  }

  lemma NotClaimedBefore(terms: seq<ParsedTerm>, n: nat)
    requires n < FULL_YEAR_WEEKS
    ensures SlotNumber(n) !in ClaimedUpTo(terms, n)
  {
    hide LastSlot, SlotNumber;
    forall k | 0 <= k < n ensures SlotNumber(k) != SlotNumber(n) { SlotNumberLexicographic(k, n); }
  }

  /** The slots reported as mapped are as many as the distinct in-range slots the sources claim. */
  lemma MappedCount(slots: seq<MappedYearSlot>, terms: seq<ParsedTerm>)
    requires |slots| == FULL_YEAR_WEEKS
    requires forall k :: 0 <= k < FULL_YEAR_WEEKS ==> SlotIs(slots[k], SlotNumber(k), LastSlot(terms, SlotNumber(k)))
    ensures CountMapped(slots) == |ClaimedSlots(terms)|
    ensures forall s: SlotKey :: s in ClaimedSlots(terms) <==> InYearGrid(s) && LastSlot(terms, s).Some?
  {
    CountMappedPrefix(slots, terms, FULL_YEAR_WEEKS);
    assert slots[..FULL_YEAR_WEEKS] == slots;
    forall s: SlotKey | InYearGrid(s) && LastSlot(terms, s).Some? ensures s in ClaimedSlots(terms) {
      assert SlotNumber(NumberOfSlot(s)) == s;
    }
  }

  /** What a slot shows: the claimant's title if it has one, else the standard title of weeks 7, 12 and 13, else nothing. */
  lemma SlotTitles(slots: seq<MappedYearSlot>, terms: seq<ParsedTerm>, term: int, week: int)
    requires |slots| == FULL_YEAR_WEEKS && 1 <= term <= 3 && 1 <= week <= 13
    requires forall k :: 0 <= k < FULL_YEAR_WEEKS ==> SlotIs(slots[k], SlotNumber(k), LastSlot(terms, SlotNumber(k)))
    ensures var (slot, source) := (slots[13 * (term - 1) + week - 1], LastSlot(terms, (term, week)));
            && slot.term == term && slot.weekNumber == week
            && (slot.status == MapFromSource <==> source.Some?)
            && (source.Some? && source.value.title != "" ==> slot.title == Some(source.value.title))
            && (source == None || source.value.title == "" ==>
                  && (week == 7 ==> slot.title == Some("Mid-term revision"))
                  && (week == 12 ==> slot.title == Some("End-of-term revision"))
                  && (week == 13 ==> slot.title == Some("Examination"))
                  && (week != 7 && week != 12 && week != 13 ==> slot.title == None))
  {
    hide LastSlot;
    SlotNumberOf((term, week));
  }
}
