/** What the merge of parsed terms promises however the pieces are grouped. */
module MergeLaws {
  import opened Prelude
  import opened ParsedTerms

  lemma MergeUnique(a: seq<RawTerm>, b: seq<RawTerm>, r: seq<ParsedTerm>, s: seq<ParsedTerm>)
    requires IsMerge(a, b, r) && IsMerge(a, b, s)
    ensures r == s
  {
    CanonicalUnique(r, s);
  }

  /** Merging is associative: `(a + b) + c` and `a + (b + c)` give the same list. */
  lemma MergeAssociative(a: seq<RawTerm>, b: seq<RawTerm>, c: seq<RawTerm>,
                         ab: seq<ParsedTerm>, bc: seq<ParsedTerm>, left: seq<ParsedTerm>, right: seq<ParsedTerm>)
    requires IsMerge(a, b, ab) && IsMerge(RawTerms(ab), c, left)
    requires IsMerge(b, c, bc) && IsMerge(a, RawTerms(bc), right)
    ensures left == right
  {
    CanonicalUnique(left, right);
  }

  /** Merging a list with itself adds nothing, and a canonical list is left exactly as it is. */
  lemma MergeIdempotent(a: seq<RawTerm>, r: seq<ParsedTerm>, again: seq<ParsedTerm>)
    requires IsMerge(a, a, r)
    requires IsMerge(RawTerms(r), RawTerms(r), again)
    ensures IsMerge([], a, r) && again == r
  {
    CanonicalUnique(again, r);
  }

  /** Merging into nothing leaves a list unchanged exactly when the list is canonical. */
  lemma NormalizeFixedIffCanonical(ts: seq<ParsedTerm>, r: seq<ParsedTerm>)
    requires IsMerge([], RawTerms(ts), r)
    ensures r == ts <==> Canonical(ts)
  {
    if Canonical(ts) { CanonicalUnique(r, ts); }
  }

  /** On every slot the earlier list is kept, and the later one is used only where the earlier is silent. */
  lemma MergeLeftBiased(base: seq<ParsedTerm>, incoming: seq<RawTerm>, r: seq<ParsedTerm>, i: nat, j: nat, n: int)
    requires Canonical(base) && IsMerge(RawTerms(base), incoming, r)
    requires i < |r| && j < |r[i].weeks| && n == r[i].weeks[j].weekNumber
    ensures Slot(RawTerms(base), r[i].term, n).Some? ==> Slot(RawTerms(base), r[i].term, n) == Some(r[i].weeks[j])
    ensures Slot(RawTerms(base), r[i].term, n).None? ==> Slot(incoming, r[i].term, n) == Some(r[i].weeks[j])
  {
    SlotAt(r, i, n);
    FirstWeekAt(r[i].weeks, j);
  }

  // ---------------------------------------------------------------- many chunks

  /** The slot as the first of several lists supplies it. */
  ghost function FirstSupplied(lists: seq<seq<RawTerm>>, t: int, n: int): Option<ParsedWeek> {
    if lists == [] then None
    else OrElse(FirstSupplied(lists[..|lists| - 1], t, n), Slot(lists[|lists| - 1], t, n))
  }

  ghost predicate AnyPresent(lists: seq<seq<RawTerm>>, t: int) {
    exists i :: 0 <= i < |lists| && Present(lists[i], t)
  }

  /** `r` is what is left when every list has been merged in, in order. */
  ghost predicate IsMergeOfAll(lists: seq<seq<RawTerm>>, r: seq<ParsedTerm>) {
    && Canonical(r)
    && (forall t :: Present(RawTerms(r), t) <==> AnyPresent(lists, t))
    && (forall t, n :: Slot(RawTerms(r), t, n) == FirstSupplied(lists, t, n))
  }

  lemma MergeAllStep(lists: seq<seq<RawTerm>>, next: seq<RawTerm>, r: seq<ParsedTerm>, s: seq<ParsedTerm>)
    requires IsMergeOfAll(lists, r) && IsMerge(RawTerms(r), next, s)
    ensures IsMergeOfAll(lists + [next], s)
  {
    var all := lists + [next];
    assert all[..|all| - 1] == lists;
    forall t ensures Present(RawTerms(s), t) <==> AnyPresent(all, t) {
      if i :| 0 <= i < |lists| && Present(lists[i], t) { assert Present(all[i], t); }
      if Present(next, t) { assert Present(all[|lists|], t); }
    }
  }

  /** The first list that has the slot supplies it, and no later one changes it. */
  lemma {:induction false} FirstSupplier(lists: seq<seq<RawTerm>>, t: int, n: int)
    ensures FirstSupplied(lists, t, n) == None <==> forall i :: 0 <= i < |lists| ==> Slot(lists[i], t, n) == None
    ensures FirstSupplied(lists, t, n).Some? ==>
              exists i :: 0 <= i < |lists| && Slot(lists[i], t, n) == FirstSupplied(lists, t, n)
                && forall j :: 0 <= j < i ==> Slot(lists[j], t, n) == None
  {
    if lists != [] {
      var init, last := lists[..|lists| - 1], |lists| - 1;
      FirstSupplier(init, t, n);
      assert forall i :: 0 <= i < |init| ==> init[i] == lists[i];
      if FirstSupplied(init, t, n).Some? {
        var i :| 0 <= i < |init| && Slot(init[i], t, n) == FirstSupplied(init, t, n)
                 && forall j :: 0 <= j < i ==> Slot(init[j], t, n) == None;
        assert Slot(lists[i], t, n) == FirstSupplied(lists, t, n);
      } else {
        assert forall j :: 0 <= j < last ==> Slot(lists[j], t, n) == None;
        assert Slot(lists[last], t, n) == FirstSupplied(lists, t, n);
      }
    }
  }

  lemma {:induction false} FirstSuppliedConcat(a: seq<seq<RawTerm>>, b: seq<seq<RawTerm>>, t: int, n: int)
    ensures FirstSupplied(a + b, t, n) == OrElse(FirstSupplied(a, t, n), FirstSupplied(b, t, n))
  {
    if b == [] {
      assert a + b == a;
    } else {
      FirstSuppliedConcat(a, b[..|b| - 1], t, n);
      assert (a + b)[..|a + b| - 1] == a + b[..|b| - 1];
    }
  }

  /** Merging two runs of chunks separately and then together is merging them in one run. */
  lemma ChunksRegroup(a: seq<seq<RawTerm>>, b: seq<seq<RawTerm>>,
                      ra: seq<ParsedTerm>, rb: seq<ParsedTerm>, both: seq<ParsedTerm>, whole: seq<ParsedTerm>)
    requires IsMergeOfAll(a, ra) && IsMergeOfAll(b, rb)
    requires IsMerge(RawTerms(ra), RawTerms(rb), both)
    requires IsMergeOfAll(a + b, whole)
    ensures both == whole
  {
    forall t ensures Present(RawTerms(both), t) <==> Present(RawTerms(whole), t) {
      if i :| 0 <= i < |a| && Present(a[i], t) { assert Present((a + b)[i], t); }
      if i :| 0 <= i < |b| && Present(b[i], t) { assert Present((a + b)[|a| + i], t); }
    }
    forall t, n ensures Slot(RawTerms(both), t, n) == Slot(RawTerms(whole), t, n) {
      FirstSuppliedConcat(a, b, t, n);
    }
    CanonicalUnique(both, whole);
  }
}
