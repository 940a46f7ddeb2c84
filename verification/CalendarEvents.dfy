/** The events of a window and of the days a message names (src/ai/ai-school-query.service.ts). */
module CalendarEvents {
  import opened Prelude
  import opened Decimals
  import opened CivilDate
  import opened CalendarWindow

  /** Start and end are instants in milliseconds. */
  datatype Event = Event(title: string, start: int, end: int)

  const DAY_MS := 86400000

  /** `${ymd}T00:00:00+01:00` and `${ymd}T23:59:59+01:00` */
  function DayStart(n: int): int { n * DAY_MS - 3600000 }
  function DayEnd(n: int): int { DayStart(n) + 86399000 }

  /** The query's condition: starts inside, or ends inside, or spans the whole range. */
  predicate Queried(e: Event, from: int, to: int) {
    || from <= e.start <= to
    || from <= e.end <= to
    || (e.start <= from && to <= e.end)
  }

  /** The interval of the event meets the range. */
  predicate Overlaps(e: Event, from: int, to: int) { e.start <= to && from <= e.end }

  /** The query finds the overlapping events, and besides them only events that end before they start. */
  lemma QueriedIsOverlap(e: Event, from: int, to: int)
    requires from <= to
    ensures Overlaps(e, from, to) ==> Queried(e, from, to)
    ensures (Queried(e, from, to) <==> Overlaps(e, from, to)) <==>
            e.start <= e.end || !((from <= e.start <= to && e.end < from) || (from <= e.end <= to && to < e.start))
  {
  }

  function QueriedIn(from: int, to: int): Event -> bool { e => Queried(e, from, to) }

  function OverlapsDay(day: int): Event -> bool { e => Overlaps(e, DayStart(day), DayEnd(day)) }

  /** `findMany` over the events in start order, at most `limit` of them. */
  function Fetch(events: seq<Event>, from: int, to: int, limit: nat): seq<Event> {
    var found := Filter(events, QueriedIn(from, to));
    if |found| <= limit then found else found[..limit]
  }

  lemma {:induction false} FilterTwice<T>(xs: seq<T>, p: T -> bool, q: T -> bool, r: T -> bool)
    requires forall x :: x in xs ==> (p(x) && q(x) <==> r(x))
    ensures Filter(Filter(xs, p), q) == Filter(xs, r)
  {
    if xs != [] {
      var init, last := xs[..|xs| - 1], xs[|xs| - 1];
      assert forall x :: x in init ==> x in xs;
      FilterTwice(init, p, q, r);
      assert last in xs;
      if p(last) {
        var kept := Filter(init, p) + [last];
        assert Filter(xs, p) == kept && kept[..|kept| - 1] == Filter(init, p);
      } else {
        assert Filter(xs, p) == Filter(init, p);
      }
    }
  }

  /** Inside the window, narrowing what the window's query found to one day is querying that day. */
  lemma NarrowingIsQuerying(events: seq<Event>, first: int, last: int, day: int)
    requires first <= day <= last
    requires forall e :: e in events ==> e.start <= e.end
    ensures Filter(Filter(events, QueriedIn(DayStart(first), DayEnd(last))), OverlapsDay(day))
         == Filter(events, QueriedIn(DayStart(day), DayEnd(day)))
  {
    assert DayStart(first) <= DayStart(day) <= DayEnd(day) <= DayEnd(last);
    forall e | e in events
      ensures QueriedIn(DayStart(first), DayEnd(last))(e) && OverlapsDay(day)(e) <==> QueriedIn(DayStart(day), DayEnd(day))(e)
    {
      QueriedIsOverlap(e, DayStart(first), DayEnd(last));
      QueriedIsOverlap(e, DayStart(day), DayEnd(day));
    }
    FilterTwice(events, QueriedIn(DayStart(first), DayEnd(last)), OverlapsDay(day), QueriedIn(DayStart(day), DayEnd(day)));
  }

  /** The instants that a day covers, from midnight to the last second, one hour east of UTC. */
  predicate OnDays(e: Event, first: int, last: int) {
    e.start <= last * 86400000 + 82799000 && e.end >= first * 86400000 - 3600000
  }

  /** What the query fetches: the first events, in their order, that meet the range, as many as the limit allows. */
  lemma FetchIs(events: seq<Event>, first: int, last: int, limit: nat, e: Event)
    requires first <= last && forall x :: x in events ==> x.start <= x.end
    ensures var (fetched, all) := (Fetch(events, DayStart(first), DayEnd(last), limit),
                                   Filter(events, QueriedIn(DayStart(first), DayEnd(last))));
            && fetched <= all && |fetched| == (if |all| <= limit then |all| else limit)
            && (e in all <==> e in events && OnDays(e, first, last))
  {
    var p := QueriedIn(DayStart(first), DayEnd(last));
    FilterMember(events, p, e);
    QueriedIsOverlap(e, DayStart(first), DayEnd(last));
  }

  /** What is shown of the window for one day: its events that meet the day. */
  lemma ShownForDay(fetched: seq<Event>, day: int, e: Event)
    ensures e in Filter(fetched, OverlapsDay(day)) <==> e in fetched && OnDays(e, day, day)
  {
    FilterMember(fetched, OverlapsDay(day), e);
  }

  const WINDOW_LIMIT := 30
  const DAY_LIMIT := 10

  datatype NamedDay = NamedDay(name: string, day: int)

  datatype NamedResult = NamedResult(name: string, date: string, inThisWeek: bool, count: nat, events: seq<Event>)

  /**
   The answer for one named day: up to ten events of its own, or, inside the window, those of the window's first thirty
   events that meet the day.
   */
  predicate Answers(d: NamedDay, events: seq<Event>, first: int, last: int, r: NamedResult)
    requires FourDigitYear(d.day)
  {
    && r.name == d.name
    && r.date == Ymd(d.day)
    && (r.inThisWeek <==> first <= d.day <= last)
    && r.count == |r.events|
    && r.events == if first <= d.day <= last then Filter(Fetch(events, DayStart(first), DayEnd(last), 30), OverlapsDay(d.day))
                   else Fetch(events, DayStart(d.day), DayEnd(d.day), 10)
  }

  /** The named days of a message, answered from the window's own events where the day falls inside it. */
  method NamedDates(named: seq<NamedDay>, events: seq<Event>, first: int, last: int) returns (out: seq<NamedResult>)
    requires FourDigitYear(first) && FourDigitYear(last)
    requires forall i :: 0 <= i < |named| ==> FourDigitYear(named[i].day)
    ensures |out| == |named|
    ensures forall i :: 0 <= i < |out| ==> FourDigitYear(named[i].day) && Answers(named[i], events, first, last, out[i])
  {
    hide Ymd, TextAtMost, Fetch;
    var fromText, toText := Ymd(first), Ymd(last);
    var fetched := Fetch(events, DayStart(first), DayEnd(last), WINDOW_LIMIT);
    out := [];
    for i := 0 to |named|
      invariant |out| == i
      invariant forall j :: 0 <= j < i ==> FourDigitYear(named[j].day) && Answers(named[j], events, first, last, out[j])
    {
      var day := named[i].day;
      var date := Ymd(day);
      var inThisWeek := TextAtMost(fromText, date) && TextAtMost(date, toText);
      InWindowByText(day, first, last);
      var found := if inThisWeek then Filter(fetched, OverlapsDay(day)) else Fetch(events, DayStart(day), DayEnd(day), DAY_LIMIT);
      out := out + [NamedResult(named[i].name, date, inThisWeek, |found|, found)];
    }
  }

  /**
   When the window's query is not cut off, a named day inside the window shows every event that a query for that day
   finds; it is the same answer as the day's own query exactly when that one is not cut off either.
   */
  lemma InsideAnswerIsDirectAnswer(events: seq<Event>, first: int, last: int, day: int)
    requires first <= day <= last
    requires forall e :: e in events ==> e.start <= e.end
    requires |Filter(events, QueriedIn(DayStart(first), DayEnd(last)))| <= WINDOW_LIMIT
    ensures var inside := Filter(Fetch(events, DayStart(first), DayEnd(last), WINDOW_LIMIT), OverlapsDay(day));
            var all := Filter(events, QueriedIn(DayStart(day), DayEnd(day)));
            && inside == all
            && (inside == Fetch(events, DayStart(day), DayEnd(day), DAY_LIMIT) <==> |all| <= DAY_LIMIT)
  {
    NarrowingIsQuerying(events, first, last, day);
  }
}
