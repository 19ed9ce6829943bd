/**
 * The selection logic of the view functions of cal/views.py: the month range of `monthly`,
 * the recent events of `index`, the category/location filter, the two feeds, the download
 * filename of a single event, and the outcome of `update_event`.
 */
module Views {
  import opened Outcomes
  import opened Seqs
  import opened Decimal
  import opened Dates
  import opened Events
  import Calendar

  // ---------------------------------------------------------------------------
  // `monthly(year, month)`: the events starting within the month.

  /** `filter(startDate__gte=lo, startDate__lt=hi)`, both dates compared as midnight. */
  predicate StartsWithin(e: Event, lo: Date, hi: Date)
  {
    !Before(e.start, Midnight(lo)) && Before(e.start, Midnight(hi))
  }

  function StartsWithinRange(lo: Date, hi: Date): Event -> bool { e => StartsWithin(e, lo, hi) }

  /** The `latest_events` of `monthly`: from the 1st of the month to the 1st of the next, ascending by start. */
  function MonthlyEvents(store: seq<Event>, y: int, m: int): Result<seq<Event>>
  {
    if !ValidDate(Date(y, m, 1)) then Err(InvalidDate)
    else if !ValidDate(FirstOfMonth(NextMonth(y, m))) then Err(InvalidDate)
    else Ok(SortByStart(Filter(StartsWithinRange(Date(y, m, 1), FirstOfMonth(NextMonth(y, m))), store)))
  }

  /**
   * The `latest_events` query of `monthly` fails for a month that does not exist and for
   * December 9999 (whose next month does not); otherwise it lists exactly the stored events
   * whose start lies in that month, each as often as stored, ascending by start.
   */
  lemma MonthlyEventsExact(store: seq<Event>, y: int, m: int)
    requires AllValid(store)
    ensures MonthlyEvents(store, y, m).Err? <==> !ValidDate(Date(y, m, 1)) || (y == MaxYear && m == 12)
    ensures MonthlyEvents(store, y, m).Ok? ==>
      var r := MonthlyEvents(store, y, m).value;
      && SortedByStart(r)
      && (forall e :: e in r <==> e in store && e.start.date.year == y && e.start.date.month == m)
      && (forall e :: multiset(r)[e] == if e.start.date.year == y && e.start.date.month == m then multiset(store)[e] else 0)
  {
    if ValidDate(Date(y, m, 1)) && ValidDate(FirstOfMonth(NextMonth(y, m))) {
      var lo, hi := Date(y, m, 1), FirstOfMonth(NextMonth(y, m));
      var p := StartsWithinRange(lo, hi);
      var r := MonthlyEvents(store, y, m).value;
      assert r == SortByStart(Filter(p, store));
      forall e: Event ensures multiset(r)[e] == if e.start.date.year == y && e.start.date.month == m then multiset(store)[e] else 0 {
        FilterMultiplicity(p, store, e);
        if e in store {
          InMonthRange(e.start.date, y, m);
        }
      }
      forall e: Event ensures e in r <==> e in store && e.start.date.year == y && e.start.date.month == m {
        assert e in r <==> multiset(r)[e] > 0;
      }
    }
  }

  // ---------------------------------------------------------------------------
  // `index`: the events starting from two days before today.

  predicate StartsFrom(e: Event, lo: Date) { !Before(e.start, Midnight(lo)) }

  function StartsFromDay(lo: Date): Event -> bool { e => StartsFrom(e, lo) }

  /** The `latest_events` of `index`: start no earlier than `today - 2 days`, ascending by start. */
  function LatestEvents(store: seq<Event>, today: Date): Result<seq<Event>>
    requires ValidDate(today)
  {
    if today == FirstDate || PrevDay(today) == FirstDate then Err(DateOverflow)
    else Ok(SortByStart(Filter(StartsFromDay(PrevDay(PrevDay(today))), store)))
  }

  /** Sorting a selection keeps exactly the selected events. */
  lemma SortedSelectionMembers(p: Event -> bool, store: seq<Event>, e: Event)
    ensures e in SortByStart(Filter(p, store)) <==> e in store && p(e)
  {
    var f := Filter(p, store);
    assert e in SortByStart(f) <==> multiset(SortByStart(f))[e] > 0;
    assert e in f <==> multiset(f)[e] > 0;
    FilterMembers(p, store, e);
  }

  lemma StartsFromOrdinal(e: Event, lo: Date)
    requires ValidEvent(e) && ValidDate(lo)
    ensures StartsFrom(e, lo) <==> Ordinal(e.start.date) >= Ordinal(lo)
  {
    OrdinalOrder(e.start.date, lo);
  }

  /** Two days before `today` is a valid date exactly when today's ordinal exceeds 2, and has ordinal two less. */
  lemma TwoDaysBefore(today: Date)
    requires ValidDate(today)
    ensures (today == FirstDate || PrevDay(today) == FirstDate) <==> Ordinal(today) <= 2
    ensures today != FirstDate && PrevDay(today) != FirstDate ==> Ordinal(PrevDay(PrevDay(today))) == Ordinal(today) - 2
  {
    OrdinalOrder(today, FirstDate);
    if today != FirstDate {
      var p1 := PrevDay(today);
      NextDayOrdinal(p1);
      OrdinalOrder(p1, FirstDate);
      if p1 != FirstDate {
        NextDayOrdinal(PrevDay(p1));
      }
    }
  }

  /**
   * The `latest_events` query of `index` lists exactly the stored events whose start day is no
   * earlier than two days before today, each as often as stored, ascending by start.
   */
  lemma LatestEventsExact(store: seq<Event>, today: Date)
    requires AllValid(store) && ValidDate(today)
    ensures LatestEvents(store, today).Err? <==> Ordinal(today) <= 2
    ensures LatestEvents(store, today).Ok? ==>
      var r := LatestEvents(store, today).value;
      && SortedByStart(r)
      && (forall e :: e in r <==> e in store && Ordinal(e.start.date) >= Ordinal(today) - 2)
      && (forall e :: multiset(r)[e] == if e in store && Ordinal(e.start.date) >= Ordinal(today) - 2 then multiset(store)[e] else 0)
  {
    TwoDaysBefore(today);
    if today != FirstDate && PrevDay(today) != FirstDate {
      var lo := PrevDay(PrevDay(today));
      var r := LatestEvents(store, today).value;
      assert r == SortByStart(Filter(StartsFromDay(lo), store));
      forall e ensures e in r <==> e in store && Ordinal(e.start.date) >= Ordinal(today) - 2 {
        SortedSelectionMembers(StartsFromDay(lo), store, e);
        if e in store {
          StartsFromOrdinal(e, lo);
        }
      }
      forall e ensures multiset(r)[e] == if e in store && Ordinal(e.start.date) >= Ordinal(today) - 2 then multiset(store)[e] else 0 {
        FilterMultiplicity(StartsFromDay(lo), store, e);
        if e in store {
          StartsFromOrdinal(e, lo);
        }
      }
    }
  }

  // ---------------------------------------------------------------------------
  // The two month views as a whole: the query, then the calendar header.

  /** The context a month view renders: the calendar header and the `latest_events` list. */
  datatype Page = Page(calendar: string, latest: seq<Event>)

  /**
   * `monthly(year, month)`: the `latest_events` query, then `formatmonth` on a fresh calendar.
   * The view fails exactly when the month, or the month before or after it, does not exist.
   */
  method Monthly(store: seq<Event>, admin: bool, esc: string -> string, y: int, m: int) returns (r: Result<Page>)
    requires AllValid(store)
    ensures r.Err? <==> !Calendar.HeaderDefined(y, m)
    ensures r.Err? ==> r.error == InvalidDate
    ensures r.Ok? ==>
      r.value == Page(Calendar.NavigationLinks(PrevMonth(y, m), NextMonth(y, m)), MonthlyEvents(store, y, m).value)
  {
    var latest := MonthlyEvents(store, y, m);
    if latest.Err? {
      return Err(latest.error);
    }
    var cal := new Calendar.EventCalendar(store, admin, esc);
    var head := cal.FormatMonth(y, m);
    if head.Err? {
      return Err(head.error);
    }
    return Ok(Page(head.value, latest.value));
  }

  /**
   * `index()`: `today - 2 days` (OverflowError on the first two days of year 1), then the
   * header of the current month (ValueError in January of year 1 and December 9999), then
   * the `latest_events` query.
   */
  method Index(store: seq<Event>, admin: bool, esc: string -> string, today: Date) returns (r: Result<Page>)
    requires AllValid(store) && ValidDate(today)
    ensures r.Err? <==> Ordinal(today) <= 2 || !Calendar.HeaderDefined(today.year, today.month)
    ensures Ordinal(today) <= 2 ==> r == Err(DateOverflow)
    ensures Ordinal(today) > 2 && !Calendar.HeaderDefined(today.year, today.month) ==> r == Err(InvalidDate)
    ensures r.Ok? ==>
      r.value == Page(Calendar.NavigationLinks(PrevMonth(today.year, today.month), NextMonth(today.year, today.month)),
                      LatestEvents(store, today).value)
  {
    TwoDaysBefore(today);
    if today == FirstDate || PrevDay(today) == FirstDate {
      return Err(DateOverflow);
    }
    var cal := new Calendar.EventCalendar(store, admin, esc);
    var head := cal.CurrentMonth(today);
    if head.Err? {
      return Err(head.error);
    }
    var latest := LatestEvents(store, today);
    return Ok(Page(head.value, latest.value));
  }

  // ---------------------------------------------------------------------------
  // `display_special_events(typ, name)`.

  /** The context of the special listing: the events (None when the kind is unknown) and the description. */
  datatype Listing = Listing(events: Option<seq<Event>>, description: Option<string>)

  function InCategory(name: string): Event -> bool { (e: Event) => e.category == Some(name) }

  function AtLocation(name: string): Event -> bool { (e: Event) => e.location == Some(name) }

  /**
   * Dispatch on `typ`: "Category" and "Location" look the name up in their table (Http404 when
   * absent) and list the events related to it; any other kind lists nothing and describes nothing.
   * The description is the Category or Location row found; names are unique in both tables, so
   * the row is identified by its name, which stands for it here.
   */
  function SpecialEvents(store: seq<Event>, categories: set<string>, locations: set<string>, typ: string, name: string): (r: Result<Listing>)
    ensures r.Err? <==> (typ == "Category" && name !in categories) || (typ == "Location" && name !in locations)
    ensures r.Err? ==> r.error == NotFound
    ensures typ != "Category" && typ != "Location" ==> r == Ok(Listing(None, None))
    ensures (typ == "Category" || typ == "Location") && r.Ok? ==> r.value.events.Some? && r.value.description == Some(name)
  {
    if typ == "Category" then
      if name in categories then Ok(Listing(Some(Filter(InCategory(name), store)), Some(name))) else Err(NotFound)
    else if typ == "Location" then
      if name in locations then Ok(Listing(Some(Filter(AtLocation(name), store)), Some(name))) else Err(NotFound)
    else
      Ok(Listing(None, None))
  }

  /** A found category (location) lists exactly the events whose category (location) has that name, in store order. */
  lemma SpecialEventsExact(store: seq<Event>, categories: set<string>, locations: set<string>, typ: string, name: string)
    requires (typ == "Category" && name in categories) || (typ == "Location" && name in locations)
    ensures SpecialEvents(store, categories, locations, typ, name).Ok?
    ensures var evs := SpecialEvents(store, categories, locations, typ, name).value.events.value;
      && IsSubsequence(evs, store)
      && (forall e :: e in evs <==> e in store && (if typ == "Category" then e.category else e.location) == Some(name))
      && (forall e :: multiset(evs)[e] == if (if typ == "Category" then e.category else e.location) == Some(name) then multiset(store)[e] else 0)
  {
    var p := if typ == "Category" then InCategory(name) else AtLocation(name);
    assert SpecialEvents(store, categories, locations, typ, name).value.events.value == Filter(p, store);
    FilterIsSubsequence(p, store);
    forall e ensures e in Filter(p, store) <==> e in store && p(e) {
      FilterMembers(p, store, e);
    }
    forall e ensures multiset(Filter(p, store))[e] == if p(e) then multiset(store)[e] else 0 {
      FilterMultiplicity(p, store, e);
    }
  }

  // ---------------------------------------------------------------------------
  // `event_list(number)` and `complete_ical(number)`.

  /** The `number` argument: the default 0, or the text taken from the URL. */
  datatype CountArg = Absent | Given(text: string)

  /** `long(number) if number != '' else 0`; None where `long` raises ValueError. */
  function Count(number: CountArg): Option<int>
  {
    match number
    case Absent => Some(0)
    case Given(s) => if s == "" then Some(0) else ParseLong(s)
  }

  /** `not number` on the argument as passed: only the default 0 and the empty text are false. */
  predicate Falsy(number: CountArg) { number.Absent? || number.text == "" }

  /**
   * `event_list`: `get_n` of the parsed count, reversed exactly when that count is 0.
   * `getN` stands for `Event.future.get_n`, which is not part of this model.
   */
  method EventList(getN: int -> seq<Event>, number: CountArg) returns (r: Result<seq<Event>>)
    ensures Count(number).None? ==> r == Err(InvalidArgument)
    ensures Count(number).Some? ==> r.Ok?
    ensures Count(number) == Some(0) ==> r == Ok(Reversed(getN(0)))
    ensures Count(number).Some? && Count(number).value != 0 ==> r == Ok(getN(Count(number).value))
  {
    var c := Count(number);
    if c.None? {
      return Err(InvalidArgument);
    }
    var n := c.value;
    var events := getN(n);
    if n == 0 {
      events := Reversed(events);
    }
    return Ok(events);
  }

  /**
   * `complete_ical`: `get_n` of the parsed count, reversed exactly when the argument as passed
   * is false, so an explicit "0" is not reversed. Building the iCalendar document from the
   * events is not part of this model; the result is the sequence it is built from.
   */
  method CompleteIcal(getN: int -> seq<Event>, number: CountArg) returns (r: Result<seq<Event>>)
    ensures Count(number).None? ==> r == Err(InvalidArgument)
    ensures Count(number).Some? && Falsy(number) ==> r == Ok(Reversed(getN(Count(number).value)))
    ensures Count(number).Some? && !Falsy(number) ==> r == Ok(getN(Count(number).value))
  {
    var c := Count(number);
    if c.None? {
      return Err(InvalidArgument);
    }
    var n := c.value;
    var events := getN(n);
    if Falsy(number) {
      events := Reversed(events);
    }
    return Ok(events);
  }

  /**
   * The two reversal tests: a false argument always counts 0, and they disagree exactly on
   * non-empty text that parses to 0. Every explicit count written `n` is n and not false,
   * so `complete_ical` never reverses it while `event_list` reverses it exactly when n == 0.
   */
  lemma ReversalTests(number: CountArg, n: nat)
    ensures Falsy(number) ==> Count(number) == Some(0)
    ensures (Count(number) == Some(0) && !Falsy(number)) <==> number.Given? && number.text != "" && ParseLong(number.text) == Some(0)
    ensures Count(Given(Digits(n))) == Some(n) && !Falsy(Given(Digits(n)))
  {
    ParseLongOfDigits(n);
  }

  // ---------------------------------------------------------------------------
  // `event_icalendar(object_id)`: the Content-Disposition value.

  predicate IsAscii(c: char) { c as int < 128 }

  predicate AllAscii(s: string) { forall i | 0 <= i < |s| :: IsAscii(s[i]) }

  /** `.encode('ascii', 'ignore')`: drops every character outside ASCII. */
  function AsciiOnly(s: string): string { Filter(IsAscii, s) }

  /** What is left is ASCII, in its original order, each ASCII character kept as often as it occurs; ASCII text is unchanged. */
  lemma AsciiOnlySpec(s: string)
    ensures AllAscii(AsciiOnly(s))
    ensures IsSubsequence(AsciiOnly(s), s)
    ensures forall c :: multiset(AsciiOnly(s))[c] == if IsAscii(c) then multiset(s)[c] else 0
    ensures AllAscii(s) ==> AsciiOnly(s) == s
  {
    forall i | 0 <= i < |AsciiOnly(s)| ensures IsAscii(AsciiOnly(s)[i]) {
      assert AsciiOnly(s)[i] in AsciiOnly(s);
    }
    FilterIsSubsequence(IsAscii, s);
    forall c ensures multiset(AsciiOnly(s))[c] == if IsAscii(c) then multiset(s)[c] else 0 {
      FilterMultiplicity(IsAscii, s, c);
    }
    if AllAscii(s) {
      FilterAll(IsAscii, s);
    }
  }

  /** The header text before ASCII filtering: `filename="<YYYY-MM-DD> - <name>.ics"`. */
  function RawDisposition(e: Event): string
    requires ValidDate(e.start.date)
  {
    "filename=\"" + IsoDate(e.start.date) + " - " + e.name + ".ics\""
  }

  function Disposition(e: Event): string
    requires ValidDate(e.start.date)
  {
    AsciiOnly(RawDisposition(e))
  }

  lemma AllAsciiConcat(a: string, b: string)
    requires AllAscii(a) && AllAscii(b)
    ensures AllAscii(a + b)
  {
  }

  lemma IsoDateAscii(d: Date)
    requires ValidDate(d)
    ensures AllAscii(IsoDate(d))
  {
    var iso := IsoDate(d);
    IsoDateShape(d);
    forall i | 0 <= i < |iso| ensures IsAscii(iso[i]) {
      if i < 4 {
        assert iso[i] == iso[..4][i];
      } else if 4 < i < 7 {
        assert iso[i] == iso[5..7][i - 5];
      } else if 7 < i {
        assert iso[i] == iso[8..][i - 8];
      }
    }
  }

  /** Filtering text framed by ASCII text only filters the middle part. */
  lemma AsciiOnlyKeepsAscii(a: string, b: string, c: string)
    requires AllAscii(a) && AllAscii(c)
    ensures AsciiOnly(a + b + c) == a + AsciiOnly(b) + c
  {
    AsciiOnlySpec(a);
    AsciiOnlySpec(c);
    FilterConcat(IsAscii, a + b, c);
    FilterConcat(IsAscii, a, b);
  }

  /**
   * The Content-Disposition value is `filename="<YYYY-MM-DD> - <name>.ics"` with only the
   * non-ASCII characters of the name removed; it is entirely ASCII and a subsequence of the raw text.
   */
  lemma DispositionShape(e: Event)
    requires ValidDate(e.start.date)
    ensures Disposition(e) == "filename=\"" + IsoDate(e.start.date) + " - " + AsciiOnly(e.name) + ".ics\""
    ensures AllAscii(Disposition(e))
    ensures IsSubsequence(Disposition(e), RawDisposition(e))
  {
    var iso := IsoDate(e.start.date);
    IsoDateAscii(e.start.date);
    AllAsciiConcat("filename=\"", iso);
    AllAsciiConcat("filename=\"" + iso, " - ");
    var prefix := "filename=\"" + iso + " - ";
    AsciiOnlyKeepsAscii(prefix, e.name, ".ics\"");
    assert RawDisposition(e) == prefix + e.name + ".ics\"";
    AsciiOnlySpec(RawDisposition(e));
  }

  /** `get_object_or_404(Event, pk=id)`: the stored event with that primary key, if any. */
  function FindEvent(store: seq<Event>, id: int): (r: Option<Event>)
    ensures r.Some? ==> r.value in store && r.value.id == id
    ensures r.None? ==> forall e | e in store :: e.id != id
  {
    if store == [] then None
    else if store[0].id == id then Some(store[0])
    else FindEvent(store[1..], id)
  }

  /** `event_icalendar`: NotFound for an unknown id, else the download's Content-Disposition value. */
  function EventIcalendar(store: seq<Event>, id: int): (r: Result<string>)
    requires AllValid(store)
    ensures r.Err? <==> forall e | e in store :: e.id != id
    ensures r.Ok? ==> exists e | e in store && e.id == id :: r.value == Disposition(e)
  {
    match FindEvent(store, id)
    case None => Err(NotFound)
    case Some(e) => Ok(Disposition(e))
  }

  // ---------------------------------------------------------------------------
  // `update_event(new, object_id)`.

  /** What `update_event` puts in the response: the error flag of the context and the status code. */
  datatype UpdateOutcome = UpdateOutcome(hasError: bool, status: int)

  /**
   * `update_event`: NotFound when an existing event is asked for and missing; otherwise the
   * error flag is raised, and the status set to 500, exactly when a POST carries an invalid form.
   * Saving the form is not part of this model.
   */
  method UpdateEvent(isNew: bool, found: bool, isPost: bool, formValid: bool) returns (r: Result<UpdateOutcome>)
    ensures r.Err? <==> !isNew && !found
    ensures r.Err? ==> r.error == NotFound
    ensures r.Ok? ==> (r.value.hasError <==> isPost && !formValid)
    ensures r.Ok? ==> r.value.status == (if r.value.hasError then 500 else 200)
  {
    if !isNew && !found {
      return Err(NotFound);
    }
    var eventValid := true;
    if isPost {
      if !formValid {
        eventValid := false;
      }
    }
    var status := 200;
    if !eventValid {
      status := 500;
    }
    return Ok(UpdateOutcome(!eventValid, status));
  }
}
