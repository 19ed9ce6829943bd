/**
 * The month-grid calendar of cal/views.py: which events a day cell lists, the markup of
 * a day cell, the header with links to the neighbouring months, and grouping by day.
 */
module Calendar {
  import opened Outcomes
  import opened Seqs
  import opened Decimal
  import opened Dates
  import opened Events

  /** `HTMLCalendar.cssclasses`: the class of each weekday column, Monday first. */
  const CssClasses: seq<string> := ["mon", "tue", "wed", "thu", "fri", "sat", "sun"]

  /** What is appended to the class of the cell showing today. */
  const TodaySuffix := " today filled"

  // ---------------------------------------------------------------------------
  // Which events a day lists.

  /**
   * What is left of an event after the three `exclude` calls for day `d`, with `d1` the day
   * after it and both compared as midnight datetimes.
   */
  predicate ListedOn(e: Event, d: Date, d1: Date)
  {
    && !Before(Midnight(d1), e.start)                        // exclude(startDate__gt=d1)
    && !(e.end.Some? && Before(e.end.value, Midnight(d)))    // exclude(endDate__lt=d, endDate__isnull=False)
    && !(e.end.None? && Before(e.start, Midnight(d)))        // exclude(endDate__isnull=True, startDate__lt=d)
  }

  function ListedOnDay(d: Date, d1: Date): Event -> bool { e => ListedOn(e, d, d1) }

  /** The events of the store listed in the cell of day `d`, in store order. */
  function DayEvents(events: seq<Event>, d: Date, d1: Date): seq<Event>
  {
    Filter(ListedOnDay(d, d1), events)
  }

  /**
   * An event is listed on `d` iff it starts no later than midnight of `d1` and, open-ended,
   * starts no earlier than midnight of `d` or, bounded, ends no earlier than that. The list
   * keeps the store's order and holds each listed event as often as the store does.
   */
  lemma DayEventsExact(events: seq<Event>, d: Date, d1: Date)
    ensures forall e :: e in DayEvents(events, d, d1) <==>
      && e in events
      && !Before(Midnight(d1), e.start)
      && (e.end.None? ==> !Before(e.start, Midnight(d)))
      && (e.end.Some? ==> !Before(e.end.value, Midnight(d)))
    ensures IsSubsequence(DayEvents(events, d, d1), events)
    ensures forall e :: multiset(DayEvents(events, d, d1))[e] == if ListedOn(e, d, d1) then multiset(events)[e] else 0
  {
    forall e ensures e in DayEvents(events, d, d1) <==> e in events && ListedOn(e, d, d1) {
      FilterMembers(ListedOnDay(d, d1), events, e);
    }
    forall e ensures multiset(DayEvents(events, d, d1))[e] == if ListedOn(e, d, d1) then multiset(events)[e] else 0 {
      FilterMultiplicity(ListedOnDay(d, d1), events, e);
    }
    FilterIsSubsequence(ListedOnDay(d, d1), events);
  }

  /** An open-ended event is listed on its start day, and also on the day before when it starts at midnight. */
  lemma OpenEndedListedOn(e: Event, d: Date)
    requires ValidEvent(e) && e.end.None? && ValidDate(d) && d != LastDate
    ensures ListedOn(e, d, NextDay(d)) <==> e.start.date == d || (e.start.date == NextDay(d) && e.start.micros == 0)
  {
    BeforeNextDay(d, e.start.date);
  }

  /**
   * A bounded event is listed on every day from its start day (or the day before, when it
   * starts at midnight) up to and including its end day.
   */
  lemma BoundedListedOn(e: Event, d: Date)
    requires ValidEvent(e) && e.end.Some? && ValidDate(d) && d != LastDate
    ensures ListedOn(e, d, NextDay(d)) <==>
      && (!DateBefore(d, e.start.date) || (e.start.date == NextDay(d) && e.start.micros == 0))
      && !DateBefore(e.end.value.date, d)
  {
    BeforeNextDay(d, e.start.date);
  }

  lemma NextDayInjective(a: Date, b: Date)
    requires ValidDate(a) && a != LastDate && ValidDate(b) && b != LastDate
    ensures NextDay(a) == NextDay(b) <==> a == b
  {
    NextDayOrdinal(a);
    NextDayOrdinal(b);
    OrdinalOrder(a, b);
    OrdinalOrder(NextDay(a), NextDay(b));
  }

  /** An open-ended event starting exactly at midnight of `d + 1` is listed on `d` and `d + 1` and on no other day. */
  lemma MidnightStartListedTwice(e: Event, d: Date)
    requires ValidDate(d) && d != LastDate
    requires e.end.None? && e.start == Midnight(NextDay(d))
    ensures ListedOn(e, d, NextDay(d))
    ensures forall x | ValidDate(x) && x != LastDate :: ListedOn(e, x, NextDay(x)) <==> x == d || x == NextDay(d)
  {
    forall x | ValidDate(x) && x != LastDate
      ensures ListedOn(e, x, NextDay(x)) <==> x == d || x == NextDay(d)
    {
      OpenEndedListedOn(e, x);
      NextDayInjective(x, d);
    }
    OpenEndedListedOn(e, d);
  }

  // ---------------------------------------------------------------------------
  // The markup of a day cell.

  function WikiLink(page: string): string { "<a href=\"/wiki/" + page + "\">" }

  const EditPrefix := "<a href=\""
  const EditSuffix := "\" class=\"edit\">/e</a>"

  /** The edit link shown to an administrator, `url` being the event's `get_absolute_url()`. */
  function EditLink(url: string): string { EditPrefix + url + EditSuffix }

  /** A piece of the cell body shaped like an edit link. */
  predicate IsEditLink(p: string)
  {
    |p| >= |EditPrefix| + |EditSuffix| && p[..|EditPrefix|] == EditPrefix && p[|p| - |EditSuffix|..] == EditSuffix
  }

  /** The pieces the loop appends for one listed event. */
  function ItemPieces(e: Event, admin: bool, esc: string -> string): seq<string>
    requires ValidEvent(e)
  {
    ["<li>", WikiLink(e.wikiPage), Clock(e.start) + " " + esc(e.name), "</a>"]
    + (if admin then [EditLink(e.url)] else [])
    + ["</li>"]
  }

  /** The pieces appended for the listed events, in list order. */
  function ItemsPieces(evs: seq<Event>, admin: bool, esc: string -> string): seq<string>
    requires AllValid(evs)
  {
    if evs == [] then []
    else ItemsPieces(evs[..|evs| - 1], admin, esc) + ItemPieces(evs[|evs| - 1], admin, esc)
  }

  lemma ItemsPiecesStep(evs: seq<Event>, i: nat, admin: bool, esc: string -> string)
    requires AllValid(evs) && i < |evs|
    ensures ItemsPieces(evs[..i + 1], admin, esc) == ItemsPieces(evs[..i], admin, esc) + ItemPieces(evs[i], admin, esc)
  {
    assert evs[..i + 1][..i] == evs[..i];
  }

  /** The `body` list of a day cell: a `<ul>` around the items of the listed events. */
  function DayBody(evs: seq<Event>, admin: bool, esc: string -> string): seq<string>
    requires AllValid(evs)
  {
    ["<ul>"] + ItemsPieces(evs, admin, esc) + ["</ul>"]
  }

  /** `''.join(pieces)`. */
  function Join(pieces: seq<string>): string
  {
    if pieces == [] then "" else Join(pieces[..|pieces| - 1]) + pieces[|pieces| - 1]
  }

  lemma EditLinkShape(url: string)
    ensures IsEditLink(EditLink(url))
  {
    var p := EditLink(url);
    assert p[..|EditPrefix|] == EditPrefix;
    assert p[|p| - |EditSuffix|..] == EditSuffix;
  }

  lemma WikiLinkIsNoEditLink(page: string)
    ensures !IsEditLink(WikiLink(page))
  {
    var p := WikiLink(page);
    if |p| >= |EditPrefix| + |EditSuffix| {
      assert p[|p| - |EditSuffix|..][|EditSuffix| - 2] == '"';
      assert EditSuffix[|EditSuffix| - 2] == 'a';
    }
  }

  lemma LabelIsNoEditLink(t: DateTime, name: string)
    requires 0 <= t.micros < MicrosPerDay
    ensures !IsEditLink(Clock(t) + " " + name)
  {
    ClockShape(t);
    var p := Clock(t) + " " + name;
    assert Clock(t)[..2][0] == p[0];
    if |p| >= |EditPrefix| {
      assert p[..|EditPrefix|][0] == p[0];
    }
  }

  lemma FilterEditLinksOne(p: string)
    ensures Filter(IsEditLink, [p]) == if IsEditLink(p) then [p] else []
  {
    assert [p][1..] == [];
  }

  /** One event contributes one `<li>` and one `</li>`. */
  lemma ItemTags(e: Event, admin: bool, esc: string -> string)
    requires ValidEvent(e)
    ensures multiset(ItemPieces(e, admin, esc))["<li>"] == 1
    ensures multiset(ItemPieces(e, admin, esc))["</li>"] == 1
  {
    var caption := Clock(e.start) + " " + esc(e.name);
    ClockShape(e.start);
    assert |WikiLink(e.wikiPage)| > 5 && |caption| > 5 && |EditLink(e.url)| > 5;
  }

  /** One event contributes an edit link exactly when `admin` holds. */
  lemma ItemEditLinks(e: Event, admin: bool, esc: string -> string)
    requires ValidEvent(e)
    ensures |Filter(IsEditLink, ItemPieces(e, admin, esc))| == if admin then 1 else 0
  {
    var wiki, caption := WikiLink(e.wikiPage), Clock(e.start) + " " + esc(e.name);
    WikiLinkIsNoEditLink(e.wikiPage);
    LabelIsNoEditLink(e.start, esc(e.name));
    EditLinkShape(e.url);
    var extra: seq<string> := if admin then [EditLink(e.url)] else [];
    var p1: seq<string> := ["<li>"] + [wiki];
    var p2 := p1 + [caption];
    var p3 := p2 + ["</a>"];
    var p4 := p3 + extra;
    assert ItemPieces(e, admin, esc) == p4 + ["</li>"];
    FilterEditLinksOne("<li>");
    FilterEditLinksOne(wiki);
    FilterEditLinksOne(caption);
    FilterEditLinksOne("</a>");
    FilterEditLinksOne("</li>");
    FilterEditLinksOne(EditLink(e.url));
    FilterConcat(IsEditLink, ["<li>"], [wiki]);
    FilterConcat(IsEditLink, p1, [caption]);
    FilterConcat(IsEditLink, p2, ["</a>"]);
    FilterConcat(IsEditLink, p3, extra);
    FilterConcat(IsEditLink, p4, ["</li>"]);
  }

  /**
   * The body of a day cell holds one `<li>` item per listed event, and one edit link per
   * listed event when `admin` holds and none otherwise.
   */
  lemma {:induction false} DayBodyCounts(evs: seq<Event>, admin: bool, esc: string -> string)
    requires AllValid(evs)
    ensures multiset(DayBody(evs, admin, esc))["<li>"] == |evs|
    ensures multiset(DayBody(evs, admin, esc))["</li>"] == |evs|
    ensures |Filter(IsEditLink, DayBody(evs, admin, esc))| == if admin then |evs| else 0
  {
    ItemsCounts(evs, admin, esc);
    FilterConcat(IsEditLink, ["<ul>"] + ItemsPieces(evs, admin, esc), ["</ul>"]);
    FilterConcat(IsEditLink, ["<ul>"], ItemsPieces(evs, admin, esc));
  }

  lemma {:induction false} ItemsCounts(evs: seq<Event>, admin: bool, esc: string -> string)
    requires AllValid(evs)
    ensures multiset(ItemsPieces(evs, admin, esc))["<li>"] == |evs|
    ensures multiset(ItemsPieces(evs, admin, esc))["</li>"] == |evs|
    ensures |Filter(IsEditLink, ItemsPieces(evs, admin, esc))| == if admin then |evs| else 0
  {
    if evs != [] {
      var init, last := evs[..|evs| - 1], evs[|evs| - 1];
      ItemsCounts(init, admin, esc);
      ItemTags(last, admin, esc);
      ItemEditLinks(last, admin, esc);
      FilterConcat(IsEditLink, ItemsPieces(init, admin, esc), ItemPieces(last, admin, esc));
    }
  }

  /** `'<td class="%s">%s</td>' % (cssclass, body)`. */
  function DayCell(cssclass: string, body: string): string
  {
    "<td class=\"" + cssclass + "\">" + body + "</td>"
  }

  /** The class of a real day's cell: its weekday class, marked as today when the date is today. */
  function CellClass(weekday: int, d: Date, today: Date): (c: string)
    requires 0 <= weekday < |CssClasses|
    ensures |c| >= |CssClasses[weekday]| && c[..|CssClasses[weekday]|] == CssClasses[weekday]
    ensures |c| == |CssClasses[weekday]| + (if d == today then |TodaySuffix| else 0)
    ensures (|c| >= |TodaySuffix| && c[|c| - |TodaySuffix|..] == TodaySuffix) <==> d == today
  {
    var c := CssClasses[weekday] + (if d == today then TodaySuffix else "");
    assert c[..|CssClasses[weekday]|] == CssClasses[weekday];
    assert d == today ==> c[|c| - |TodaySuffix|..] == TodaySuffix;
    c
  }

  // ---------------------------------------------------------------------------
  // The month header.

  /** The two header links, to the months `prev` and `next` given as (year, month). */
  function NavigationLinks(prev: (int, int), next: (int, int)): string
    requires 0 <= prev.0 && 0 <= prev.1 && 0 <= next.0 && 0 <= next.1
  {
    "<a href=\"/calendar/" + ZeroPad(prev.0, 4) + "/" + ZeroPad(prev.1, 2) + "/\">&lt;</a> "
    + "<a href=\"/calendar/" + ZeroPad(next.0, 4) + "/" + ZeroPad(next.1, 2) + "/\">&gt;</a>"
  }

  /** For years 1..9999 the header is 75 characters whose year and month fields read back as `prev` and `next`. */
  lemma NavigationLinksDecode(prev: (int, int), next: (int, int))
    requires MinYear <= prev.0 <= MaxYear && 1 <= prev.1 <= 12 && MinYear <= next.0 <= MaxYear && 1 <= next.1 <= 12
    ensures var h := NavigationLinks(prev, next);
      && |h| == 75
      && AllDigits(h[19..23]) && Value(h[19..23]) == prev.0
      && AllDigits(h[24..26]) && Value(h[24..26]) == prev.1
      && AllDigits(h[57..61]) && Value(h[57..61]) == next.0
      && AllDigits(h[62..64]) && Value(h[62..64]) == next.1
  {
    assert Pow10(2) == 100 && Pow10(4) == 10000;
    ZeroPadWidth(prev.0, 4);
    ZeroPadWidth(prev.1, 2);
    ZeroPadWidth(next.0, 4);
    ZeroPadWidth(next.1, 2);
    ZeroPadRoundTrip(prev.0, 4);
    ZeroPadRoundTrip(prev.1, 2);
    ZeroPadRoundTrip(next.0, 4);
    ZeroPadRoundTrip(next.1, 2);
    var h := NavigationLinks(prev, next);
    assert h[19..23] == ZeroPad(prev.0, 4);
    assert h[24..26] == ZeroPad(prev.1, 2);
    assert h[57..61] == ZeroPad(next.0, 4);
    assert h[62..64] == ZeroPad(next.1, 2);
  }

  /** The header `formatmonth` computes for (y, m), or the ValueError it raises. */
  predicate HeaderDefined(y: int, m: int)
  {
    ValidDate(Date(y, m, 1)) && ValidDate(FirstOfMonth(PrevMonth(y, m))) && ValidDate(FirstOfMonth(NextMonth(y, m)))
  }

  // ---------------------------------------------------------------------------
  // `group_by_day`.

  /** The key `group_by_day` groups by: the day of the month of the start. */
  function StartDay(e: Event): int { e.start.date.day }

  /** `groupby(events, key)`: the maximal runs of consecutive events with the same key. */
  function Runs(s: seq<Event>): seq<(int, seq<Event>)>
  {
    if s == [] then []
    else
      var rest := Runs(s[1..]);
      if rest != [] && rest[0].0 == StartDay(s[0]) then [(rest[0].0, [s[0]] + rest[0].1)] + rest[1..]
      else [(StartDay(s[0]), [s[0]])] + rest
  }

  function Flatten(runs: seq<(int, seq<Event>)>): seq<Event>
  {
    if runs == [] then [] else runs[0].1 + Flatten(runs[1..])
  }

  /** Every run is non-empty and carries its own key; neighbouring runs have different keys. */
  predicate WellFormedRuns(runs: seq<(int, seq<Event>)>)
  {
    && (forall i | 0 <= i < |runs| :: runs[i].1 != [] && forall e | e in runs[i].1 :: StartDay(e) == runs[i].0)
    && (forall i | 0 <= i < |runs| - 1 :: runs[i].0 != runs[i + 1].0)
  }

  /** Grouping is lossless (the runs concatenate back to the input) and the runs are maximal. */
  lemma {:induction false} RunsSpec(s: seq<Event>)
    ensures Flatten(Runs(s)) == s
    ensures WellFormedRuns(Runs(s))
    ensures s != [] ==> Runs(s) != [] && Runs(s)[0].0 == StartDay(s[0])
  {
    if s != [] {
      RunsSpec(s[1..]);
      var rest := Runs(s[1..]);
      var r := Runs(s);
      if rest != [] && rest[0].0 == StartDay(s[0]) {
        assert r[1..] == rest[1..];
        assert rest == [rest[0]] + rest[1..];
        assert Flatten(rest) == rest[0].1 + Flatten(rest[1..]);
        forall i | 0 <= i < |r| - 1 ensures r[i].0 != r[i + 1].0 {
          assert r[i].0 == rest[i].0 && r[i + 1] == rest[i + 1];
        }
      } else {
        assert r[1..] == rest;
      }
    }
  }

  lemma {:induction false} FlattenMembers(runs: seq<(int, seq<Event>)>, e: Event)
    ensures e in Flatten(runs) <==> exists i :: 0 <= i < |runs| && e in runs[i].1
  {
    if runs != [] {
      FlattenMembers(runs[1..], e);
      if e in Flatten(runs[1..]) {
        var i :| 0 <= i < |runs| - 1 && e in runs[1..][i].1;
        assert e in runs[i + 1].1;
      }
      if exists i :: 0 <= i < |runs| && e in runs[i].1 {
        var i :| 0 <= i < |runs| && e in runs[i].1;
        if i > 0 {
          assert e in runs[1..][i - 1].1;
        }
      }
    }
  }

  /** `dict(pairs)`: a later pair with the same key overwrites an earlier one. */
  function ToDict(runs: seq<(int, seq<Event>)>): map<int, seq<Event>>
  {
    if runs == [] then map[] else ToDict(runs[..|runs| - 1])[runs[|runs| - 1].0 := runs[|runs| - 1].1]
  }

  /** The dictionary holds each key of the pairs, mapped to the value of the LAST pair with that key. */
  lemma {:induction false} ToDictLast(runs: seq<(int, seq<Event>)>)
    ensures forall k :: k in ToDict(runs) <==> exists i :: 0 <= i < |runs| && runs[i].0 == k
    ensures forall k | k in ToDict(runs) ::
      exists i :: 0 <= i < |runs| && runs[i] == (k, ToDict(runs)[k]) && forall j | i < j < |runs| :: runs[j].0 != k
  {
    if runs != [] {
      var init := runs[..|runs| - 1];
      var n := |runs| - 1;
      ToDictLast(init);
      forall k ensures k in ToDict(runs) <==> exists i :: 0 <= i < |runs| && runs[i].0 == k {
        if k in ToDict(init) {
          var i :| 0 <= i < |init| && init[i].0 == k;
          assert runs[i].0 == k;
        }
        if exists i :: 0 <= i < |runs| && runs[i].0 == k {
          var i :| 0 <= i < |runs| && runs[i].0 == k;
          if i < n {
            assert init[i].0 == k;
          }
        }
      }
      forall k | k in ToDict(runs)
        ensures exists i :: 0 <= i < |runs| && runs[i] == (k, ToDict(runs)[k]) && forall j | i < j < |runs| :: runs[j].0 != k
      {
        if k == runs[n].0 {
          assert runs[n] == (k, ToDict(runs)[k]);
        } else {
          var i :| 0 <= i < |init| && init[i] == (k, ToDict(init)[k]) && forall j | i < j < |init| :: init[j].0 != k;
          assert runs[i] == (k, ToDict(runs)[k]);
          assert forall j | i < j < |runs| :: runs[j].0 != k by {
            forall j | i < j < |runs| ensures runs[j].0 != k {
              if j < n {
                assert init[j] == runs[j];
              }
            }
          }
        }
      }
    }
  }

  /** `group_by_day(events)`. */
  function GroupByDay(s: seq<Event>): map<int, seq<Event>>
  {
    ToDict(Runs(s))
  }

  /**
   * The keys are exactly the start days that occur; each value is a non-empty run of
   * consecutive events with that day, namely the last such run.
   */
  lemma GroupByDaySpec(s: seq<Event>)
    ensures forall k :: k in GroupByDay(s) <==> exists e | e in s :: StartDay(e) == k
    ensures forall k | k in GroupByDay(s) :: GroupByDay(s)[k] != [] && forall e | e in GroupByDay(s)[k] :: StartDay(e) == k
    ensures forall k | k in GroupByDay(s) ::
      exists i :: 0 <= i < |Runs(s)| && Runs(s)[i] == (k, GroupByDay(s)[k]) && forall j | i < j < |Runs(s)| :: Runs(s)[j].0 != k
  {
    var runs := Runs(s);
    RunsSpec(s);
    ToDictLast(runs);
    forall k ensures k in GroupByDay(s) <==> exists e | e in s :: StartDay(e) == k {
      if k in GroupByDay(s) {
        var i :| 0 <= i < |runs| && runs[i].0 == k;
        var e := runs[i].1[0];
        FlattenMembers(runs, e);
        assert e in s && StartDay(e) == k;
      }
      if exists e | e in s :: StartDay(e) == k {
        var e :| e in s && StartDay(e) == k;
        FlattenMembers(runs, e);
        var i :| 0 <= i < |runs| && e in runs[i].1;
        assert runs[i].0 == k;
      }
    }
  }

  // ---------------------------------------------------------------------------
  // The calendar object.

  /** `EventCalendar`: the events to show, whether to add edit links, and the month being rendered. */
  class EventCalendar {
    const events: seq<Event>
    const admin: bool
    /** The HTML escaping applied to event names (Django's `conditional_escape`). */
    const esc: string -> string
    var year: int
    var month: int

    ghost predicate Valid() { AllValid(events) }

    /** The year and month are unset until `FormatMonth` runs; 0 stands for "unset". */
    constructor (events: seq<Event>, admin: bool, esc: string -> string)
      requires AllValid(events)
      ensures Valid() && this.events == events && this.admin == admin && this.esc == esc
      ensures year == 0 && month == 0
    {
      this.events := events;
      this.admin := admin;
      this.esc := esc;
      year, month := 0, 0;
    }

    /** The loop of `formatday`: the `body` list for the events listed in one cell. */
    method DayBodyOf(listed: seq<Event>) returns (body: seq<string>)
      requires AllValid(listed)
      ensures body == DayBody(listed, admin, esc)
    {
      body := ["<ul>"];
      assert listed[..0] == [];
      for i := 0 to |listed|
        invariant body == ["<ul>"] + ItemsPieces(listed[..i], admin, esc)
      {
        var event := listed[i];
        assert event in listed;
        ghost var before := body;
        body := body + ["<li>"];
        body := body + [WikiLink(event.wikiPage)];
        body := body + [Clock(event.start) + " " + esc(event.name)];
        body := body + ["</a>"];
        if admin {
          body := body + [EditLink(event.url)];
        }
        body := body + ["</li>"];
        assert body == before + ItemPieces(event, admin, esc);
        ItemsPiecesStep(listed, i, admin, esc);
      }
      body := body + ["</ul>"];
      assert listed[..|listed|] == listed;
    }

    /** `formatday(day, weekday)`: the cell of one grid position, `day == 0` being padding. */
    method FormatDay(day: int, weekday: int, today: Date) returns (cell: Result<string>)
      requires Valid() && 0 <= weekday < |CssClasses|
      ensures day == 0 ==> cell == Ok(DayCell("noday", "&nbsp;"))
      ensures day != 0 && !ValidDate(Date(year, month, day)) ==> cell == Err(InvalidDate)
      ensures day != 0 && Date(year, month, day) == LastDate ==> cell == Err(DateOverflow)
      ensures day != 0 && ValidDate(Date(year, month, day)) && Date(year, month, day) != LastDate ==>
        var d := Date(year, month, day);
        cell == Ok(DayCell(CellClass(weekday, d, today),
                           Digits(day) + " " + Join(DayBody(DayEvents(events, d, NextDay(d)), admin, esc))))
    {
      if day != 0 {
        var made := MakeDate(year, month, day);
        if made.Err? {
          return Err(InvalidDate);
        }
        var d := made.value;
        if d == LastDate {
          return Err(DateOverflow);
        }
        var d1 := NextDay(d);
        var cssclass := CssClasses[weekday];
        if today == d {
          cssclass := cssclass + " today";
          cssclass := cssclass + " filled";
        }
        assert cssclass == CellClass(weekday, d, today);
        var listed := DayEvents(events, d, d1);
        assert AllValid(listed);
        var body := DayBodyOf(listed);
        return Ok(DayCell(cssclass, Digits(day) + " " + Join(body)));
      }
      return Ok(DayCell("noday", "&nbsp;"));
    }

    /**
     * `formatmonth(y, m)`: records the month for `FormatDay` and returns the header linking
     * to the previous and the next month; ValueError when one of the three months is out of range.
     */
    method FormatMonth(y: int, m: int) returns (head: Result<string>)
      modifies this
      ensures year == y && month == m
      ensures !HeaderDefined(y, m) ==> head == Err(InvalidDate)
      ensures HeaderDefined(y, m) ==> head == Ok(NavigationLinks(PrevMonth(y, m), NextMonth(y, m)))
    {
      year, month := y, m;
      var first := MakeDate(y, m, 1);
      if first.Err? {
        return Err(InvalidDate);
      }
      var prev := PrevMonth(y, m);
      var next := NextMonth(y, m);
      if MakeDate(prev.0, prev.1, 1).Err? || MakeDate(next.0, next.1, 1).Err? {
        return Err(InvalidDate);
      }
      head := Ok(NavigationLinks(prev, next));
    }

    /** `currentmonth()`: the month containing `today`. */
    method CurrentMonth(today: Date) returns (head: Result<string>)
      requires ValidDate(today)
      modifies this
      ensures year == today.year && month == today.month
      ensures !HeaderDefined(today.year, today.month) ==> head == Err(InvalidDate)
      ensures HeaderDefined(today.year, today.month) ==>
        head == Ok(NavigationLinks(PrevMonth(today.year, today.month), NextMonth(today.year, today.month)))
    {
      head := FormatMonth(today.year, today.month);
    }
  }
}
