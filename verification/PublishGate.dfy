/** The completeness test behind publishing a curriculum (src/agora-curriculum/full-year-curriculum.util.ts). */
module PublishGate {
  import opened Prelude
  import opened ParsedTerms
  import opened MappedYear

  /** The week numbers of the topics of one term. */
  function WeeksOfTerm(topics: seq<SlotKey>, term: int): set<int> {
    set i | 0 <= i < |topics| && topics[i].0 == term :: topics[i].1
  }

  predicate TermComplete(topics: seq<SlotKey>, term: int) {
    var weeks := WeeksOfTerm(topics, term);
    |weeks| == WEEKS_PER_TERM && forall w :: 1 <= w <= WEEKS_PER_TERM ==> w in weeks
  }

  predicate IsCompleteFullYearSlots(topics: seq<SlotKey>) {
    && |topics| == FULL_YEAR_WEEKS
    && TermComplete(topics, 1) && TermComplete(topics, 2) && TermComplete(topics, 3)
  }

  /** Every slot of the grid is listed, nothing else is, and nothing is listed twice. */
  ghost predicate OncePerSlot(topics: seq<SlotKey>) {
    && Distinct(topics)
    && forall s: SlotKey :: s in topics <==> InYearGrid(s)
  }

  function GridTo(n: nat): (r: seq<SlotKey>)
    requires n <= FULL_YEAR_WEEKS
    ensures |r| == n && forall k :: 0 <= k < n ==> r[k] == SlotNumber(k)
  {
    seq(n, k requires 0 <= k < n => SlotNumber(k))
  }

  lemma GridDistinct()
    ensures Distinct(GridTo(FULL_YEAR_WEEKS))
    ensures forall s: SlotKey :: s in GridTo(FULL_YEAR_WEEKS) <==> InYearGrid(s)
  {
    var grid := GridTo(FULL_YEAR_WEEKS);
    forall i, j | 0 <= i < j < |grid| ensures grid[i] != grid[j] { SlotNumberLexicographic(i, j); }
    forall s: SlotKey ensures s in grid <==> InYearGrid(s) {
      if InYearGrid(s) { assert grid[NumberOfSlot(s)] == s; }
    }
  }

  /** A list no longer than its set of elements repeats nothing. */
  lemma {:induction false} ElementsSize<T>(xs: seq<T>)
    ensures |Elements(xs)| <= |xs|
    ensures |Elements(xs)| == |xs| ==> Distinct(xs)
  {
    if xs == [] {
      assert Elements(xs) == {};
    } else {
      var init, last := xs[..|xs| - 1], xs[|xs| - 1];
      ElementsSize(init);
      assert xs == init + [last];
      assert Elements(xs) == Elements(init) + {last};
      if last in Elements(init) { assert Elements(xs) == Elements(init); }
      forall i | 0 <= i < |init| && |Elements(xs)| == |xs| ensures xs[i] != last { assert init[i] in init; }
    }
  }

  lemma Covered(topics: seq<SlotKey>, s: SlotKey)
    ensures s.1 in WeeksOfTerm(topics, s.0) <==> s in topics
  {
    if i :| 0 <= i < |topics| && topics[i].0 == s.0 && topics[i].1 == s.1 { assert topics[i] == s; }
  }

  /** Thirty-nine topics covering thirty-nine slots: no room for a duplicate or for a stray slot. */
  lemma CompleteIffOncePerSlot(topics: seq<SlotKey>)
    ensures IsCompleteFullYearSlots(topics) <==> OncePerSlot(topics)
  {
    var grid := GridTo(FULL_YEAR_WEEKS);
    GridDistinct();
    ElementsSize(topics);
    DistinctSize(grid);
    if IsCompleteFullYearSlots(topics) {
      forall s: SlotKey | InYearGrid(s) ensures s in topics { Covered(topics, s); }
      SubsetSize(Elements(grid), Elements(topics));
      assert Elements(grid) == Elements(topics);
      forall s: SlotKey ensures s in topics <==> InYearGrid(s) {
        assert s in topics <==> s in Elements(topics);
        assert s in grid <==> s in Elements(grid);
      }
    }
    if OncePerSlot(topics) {
      DistinctSize(topics);
      assert Elements(topics) == Elements(grid);
      OneTermComplete(topics, 1);
      OneTermComplete(topics, 2);
      OneTermComplete(topics, 3);
    }
  }

  lemma OneTermComplete(topics: seq<SlotKey>, term: int)
    requires OncePerSlot(topics) && 1 <= term <= FULL_YEAR_TERMS
    ensures TermComplete(topics, term)
  {
    var weeks := WeeksOfTerm(topics, term);
    forall w ensures w in weeks <==> 1 <= w <= WEEKS_PER_TERM {
      Covered(topics, (term, w));
      assert (term, w) in topics <==> InYearGrid((term, w));
    }
    ThirteenWeeks(weeks);
  }
}
