# Events calendar: a verified model of the calendar views

This project models the logic in `cal/views.py` of an events-calendar web application and
proves properties of it in Dafny. The application shows stored events in an HTML month grid.
It also offers the events as an HTML feed and as iCalendar downloads, and lets signed-in
users edit events. The model covers:

- **the day cell** (`EventCalendar.formatday`): which events the cell of day `d` lists after
  the three `exclude` calls, the pieces its loop appends per event, the cell's CSS class and
  the padding cell;
- **the month header** (`formatmonth`, `currentmonth`): the previous and next month, computed
  from the 1st of the requested month, and the two links built from them;
- **`group_by_day`**: `itertools.groupby` on the start day, then `dict`, where a later key
  overwrites an earlier one;
- **the view selections**: the month range of `monthly`, the "from two days ago" list of
  `index`, the whole `monthly` and `index` views with their error outcomes, the Category/Location dispatch of `display_special_events`, and the count parsing
  and reversal of `event_list` and `complete_ical`, whose reversal tests differ;
- **the download filename** of `event_icalendar`, with non-ASCII characters dropped;
- **the outcome of `update_event`**: its error flag and status 500.

Dates are proleptic Gregorian `(year, month, day)` records of years 1..9999. Datetimes are
naive: a date plus the microseconds since its midnight. Both are compared field by field, as
Python compares them. When a date is compared with a datetime, it stands for its midnight.
Day ordinals (`date.toordinal()`) appear only in proofs: they show that "the next day" and
"the next month" are what they claim to be.

The event store is a sequence of records in query-set order. The result of
`Event.future.get_n` is a function parameter `getN`. `date.today()` is a parameter. Django's
`conditional_escape` is the calendar's `esc` parameter, and `get_absolute_url()` is the
record's `url` field.

Modules: `Outcomes` (errors and options), `Seqs` (filtering, subsequences, reversal),
`Decimal` (`%d`, `%0Nd`, `long`), `Dates`, `Events` (the record and `order_by('startDate')`),
`Calendar` (the `EventCalendar` class and its functions) and `Views` (the view functions).

Four behaviours of the code that a reader may not expect, and that the model follows:

- The day test is closed at the end. An event starting exactly at midnight of `d + 1` is
  listed on `d` as well (`Calendar.MidnightStartListedTwice`), so it is not a half-open test.
- A missing Category or Location name is a not-found outcome. It is not an empty result:
  `get_object_or_404` raises Http404, and the `except ObjectDoesNotExist` clause does not
  catch Http404, so the clause can never run.
- A negative count is accepted: `long("-3")` succeeds. It is not rejected as an invalid
  argument.
- Only `event_list` reverses an explicit `"0"`. `complete_ical` tests the raw argument, which
  is true for any non-empty text.

## Model

| member | source | states |
|---|---|---|
| `Calendar.ListedOn` | cal/views.py:38 | no ensures; it is the negation of the three `exclude` calls, specified by `DayEventsExact`, `OpenEndedListedOn` and `BoundedListedOn` |
| `Calendar.DayEvents` | cal/views.py:38 | no ensures; it is the query the `formatday` loop iterates over, specified by `DayEventsExact` |
| `Calendar.DayEventsExact` | cal/views.py:37-38 | an event is in day d's list iff it is stored, starts no later than midnight of d1, and (open-ended) starts no earlier than midnight of d or (bounded) ends no earlier than it; the list is a subsequence of the store and holds each listed event as often as the store does |
| `Calendar.OpenEndedListedOn` | cal/views.py:31-38 | with d1 the day after d, an open-ended event is listed on d iff it starts on d, or exactly at midnight of d1 |
| `Calendar.BoundedListedOn` | cal/views.py:31-38 | with d1 the day after d, a bounded event is listed on d iff its start day is at most d (or it starts exactly at midnight of d1) and its end day is at least d |
| `Calendar.MidnightStartListedTwice` | cal/views.py:31-38 | an open-ended event starting exactly at midnight of d+1 is listed on d and d+1 and on no other day |
| `Calendar.NextDayInjective` | cal/views.py:32 | distinct days have distinct next days |
| `Calendar.ItemPieces` | cal/views.py:39-45 | no ensures; these are the pieces one loop iteration appends, specified by `ItemTags` and `ItemEditLinks` |
| `Calendar.DayBody` | cal/views.py:37-46 | no ensures; this is the finished `body` list, specified by `DayBodyCounts` and built by `EventCalendar.DayBodyOf` |
| `Calendar.Join` | cal/views.py:47 | no ensures; it is `u''.join(body)`, used by `EventCalendar.FormatDay` |
| `Calendar.DayCell` | cal/views.py:66-67 | no ensures; it is `day_cell`, the class and body placed in `<td class="…">…</td>`, used by every outcome of `EventCalendar.FormatDay` |
| `Calendar.ItemTags` | cal/views.py:39-45 | the pieces appended for one event hold exactly one `<li>` and one `</li>` |
| `Calendar.ItemEditLinks` | cal/views.py:39-45 | the pieces appended for one event hold one edit link when admin is set and none otherwise |
| `Calendar.ItemsCounts` | cal/views.py:38-45 | the pieces appended for a list of events hold one `<li>`/`</li>` per event and one edit link per event exactly when admin is set |
| `Calendar.DayBodyCounts` | cal/views.py:37-46 | the body of a cell holds one `<li>` per listed event, and as many edit links as listed events when admin is set, else none |
| `Calendar.WikiLinkIsNoEditLink` | cal/views.py:40 | the wiki link piece is never mistaken for an edit link |
| `Calendar.LabelIsNoEditLink` | cal/views.py:41 | the `HH:MM name` piece is never mistaken for an edit link, whatever the escaped name |
| `Calendar.EditLinkShape` | cal/views.py:44 | the admin piece is an edit link |
| `Calendar.CellClass` | cal/views.py:33-36 | a real day's class is its weekday class followed by nothing else, or by ` today filled` appended exactly when the date is today |
| `Calendar.NavigationLinks` | cal/views.py:57 | no ensures; it is the header text, specified by `NavigationLinksDecode` |
| `Calendar.HeaderDefined` | cal/views.py:54-56 | no ensures; it holds when the three `date(…, 1)` values exist (the month, the one before and the one after); it decides the error of `EventCalendar.FormatMonth`, `Views.Monthly` and `Views.Index` |
| `Calendar.NavigationLinksDecode` | cal/views.py:57 | for years 1..9999 the header is 75 characters whose `%04d`/`%02d` fields read back as the previous and the next (year, month) |
| `Calendar.Runs` | cal/views.py:63 | no ensures; it is `groupby(events, field)`, specified by `RunsSpec` |
| `Calendar.ToDict` | cal/views.py:62-64 | no ensures; it is `dict(pairs)`, specified by `ToDictLast` |
| `Calendar.GroupByDay` | cal/views.py:60-64 | no ensures; it is `group_by_day`, specified by `GroupByDaySpec` |
| `Calendar.RunsSpec` | cal/views.py:60-63 | the groups concatenate back to the input; each is non-empty, shares one start day and differs in key from its neighbours |
| `Calendar.FlattenMembers` | cal/views.py:62-63 | an event occurs in the concatenated groups iff it occurs in one of them |
| `Calendar.ToDictLast` | cal/views.py:62-64 | the dict has exactly the keys of the pairs, each mapped to the value of the last pair with that key |
| `Calendar.GroupByDaySpec` | cal/views.py:60-64 | the keys are exactly the start days that occur; each value is a non-empty run of events with that day, namely the last run with that key |
| `Calendar.EventCalendar.constructor` | cal/views.py:24-27 | stores the events and the admin flag; year and month start unset |
| `Calendar.EventCalendar.DayBodyOf` | cal/views.py:37-46 | the loop builds exactly the `<ul>`-framed pieces of the listed events in list order |
| `Calendar.EventCalendar.FormatDay` | cal/views.py:29-49 | padding gives `<td class="noday">&nbsp;</td>`; an invalid date gives InvalidDate, 9999-12-31 gives an overflow; otherwise the cell holds the class, the day number and the body of the day's listed events |
| `Calendar.EventCalendar.FormatMonth` | cal/views.py:51-58 | records year and month; InvalidDate unless the month and both neighbours are valid; otherwise the header links to the previous and the next month |
| `Calendar.EventCalendar.CurrentMonth` | cal/views.py:69-71 | formats the header of the month containing today |
| `Dates.MakeDate` | cal/views.py:31 | no ensures; it is `date(y, m, d)`, failing with InvalidDate exactly when `ValidDate` does not hold; `EventCalendar.FormatDay` and `EventCalendar.FormatMonth` state its outcomes |
| `Dates.NextDay` | cal/views.py:32 | the day after a valid day other than 9999-12-31 is a valid, later day |
| `Dates.NextDayOrdinal` | cal/views.py:32 | the day after is exactly one ordinal later |
| `Dates.BeforeNextDay` | cal/views.py:32-38 | a date is before d + 1 day iff it is not after d |
| `Dates.PrevDay` | cal/views.py:75 | the day before a valid day other than 0001-01-01 is valid and has it as its next day |
| `Dates.OrdinalOrder` | cal/views.py:38 | ordinals number the valid dates in calendar order, one ordinal per date |
| `Dates.OrdinalMonotone` | cal/views.py:38 | an earlier valid date has a smaller ordinal |
| `Dates.DaysBeforeYearGrows` | cal/views.py:38 | a later year starts at least one whole year later |
| `Dates.BeforeIsStrictOrder` | cal/views.py:91 | datetime `<` is irreflexive, asymmetric and transitive, and `<=` is transitive |
| `Dates.PrevMonth` | cal/views.py:55 | the previous month is a month 1..12; January rolls back to December of the year before |
| `Dates.NextMonth` | cal/views.py:56 | the next month is a month 1..12; December rolls over to January of the year after |
| `Dates.MonthStepsInverse` | cal/views.py:55-56 | a month step back followed by one forward, or the reverse, returns to the start |
| `Dates.MonthSpan` | cal/views.py:56 | the 1st of the next month lies exactly `DaysInMonth` days after the 1st of this one |
| `Dates.PrevMonthSpan` | cal/views.py:55 | the 1st of the previous month lies exactly the length of that month before the 1st of this one |
| `Dates.InMonthRange` | cal/views.py:89-91 | a valid date is in [1st of the month, 1st of the next month) iff it has that year and month |
| `Dates.Clock` | cal/views.py:41 | no ensures; it is `strftime('%H:%M')`, specified by `ClockShape` |
| `Dates.ClockShape` | cal/views.py:41 | `%H:%M` is five characters whose digit pairs read back as the hour (< 24) and minute of the start |
| `Dates.IsoDate` | cal/views.py:197 | no ensures; it is `strftime('%Y-%m-%d')`, specified by `IsoDateShape` |
| `Dates.IsoDateShape` | cal/views.py:197 | `%Y-%m-%d` is ten characters whose digit groups read back as year, month and day |
| `Decimal.Digits` | cal/views.py:47 | `%d` of a natural number is non-empty decimal digits with no leading zero |
| `Decimal.ValueOfDigits` | cal/views.py:47 | reading back `%d` gives the number |
| `Decimal.ZeroPadRoundTrip` | cal/views.py:57 | `%0Nd` is at least N digits that read back as the number |
| `Decimal.ZeroPadWidth` | cal/views.py:57 | a number below 10^N is padded to exactly N digits |
| `Decimal.ParseLong` | cal/views.py:181 | `long(s)` succeeds exactly on an optional sign followed by digits |
| `Decimal.ParseLongOfDigits` | cal/views.py:181 | `long` of the decimal text of n is n |
| `Events.InsertByStart` | cal/views.py:91 | inserting into a start-sorted list keeps it sorted and adds exactly that event |
| `Events.SortByStart` | cal/views.py:91 | `order_by('startDate')` is ascending by start and a permutation of its input |
| `Views.MonthlyEvents` | cal/views.py:89-91 | no ensures; it is the `latest_events` query of `monthly`, specified by `MonthlyEventsExact` |
| `Views.MonthlyEventsExact` | cal/views.py:89-91 | the `latest_events` query of `monthly` fails (InvalidDate) for a month that does not exist or for December 9999; otherwise it holds exactly the stored events starting in that month, as often as stored, ascending by start |
| `Views.Monthly` | cal/views.py:88-100 | the whole view fails, with InvalidDate, exactly when the month or the month before or after it does not exist (January of year 1 included); otherwise it renders the header linking to the previous and next month together with that month's `latest_events` |
| `Views.LatestEvents` | cal/views.py:75-78 | no ensures; it is the `latest_events` query of `index`, specified by `LatestEventsExact` |
| `Views.SortedSelectionMembers` | cal/views.py:78 | sorting a selection keeps exactly the selected events |
| `Views.StartsFromOrdinal` | cal/views.py:78 | starting no earlier than midnight of a day means a start day with at least that ordinal |
| `Views.TwoDaysBefore` | cal/views.py:75 | today − 2 days overflows exactly for the first two days of year 1, and is otherwise two ordinals earlier |
| `Views.LatestEventsExact` | cal/views.py:75-78 | the `latest_events` query of `index` holds exactly the stored events whose start day is no earlier than two days before today, each as often as stored, ascending by start; computing `today - 2 days` overflows on the first two days of year 1 |
| `Views.Index` | cal/views.py:74-85 | the whole view fails exactly when `today - 2 days` overflows (first two days of year 1, DateOverflow) or the current month's header does not exist (January of year 1, December 9999; InvalidDate); otherwise it renders that header together with the `latest_events` of today |
| `Views.SpecialEvents` | cal/views.py:108-120 | NotFound exactly when the kind is Category/Location and the name is missing from its table; an unknown kind gives no events and no description; a found one gives events and, as description, the name that identifies the row found |
| `Views.SpecialEventsExact` | cal/views.py:109-114 | a found category (location) lists exactly the events whose category (location) has that name, as a subsequence of the store with store multiplicities |
| `Views.Count` | cal/views.py:181 | no ensures; it is `long(number) if number != '' else 0`, specified by `ReversalTests` and used by `EventList` and `CompleteIcal` |
| `Views.Falsy` | cal/views.py:207 | no ensures; it is `not number` on the argument as passed, specified by `ReversalTests` |
| `Views.EventList` | cal/views.py:180-188 | text that `long` rejects gives InvalidArgument; a count of 0 (default, `''` or any text reading 0) gives `get_n(0)` reversed; any other count n gives `get_n(n)` unreversed |
| `Views.CompleteIcal` | cal/views.py:202-211 | text that `long` rejects gives InvalidArgument; `get_n` of the count, reversed exactly when the raw argument is false (default or `''`) |
| `Views.ReversalTests` | cal/views.py:181-185 | a false argument always counts 0; the two tests differ exactly on non-empty text reading 0; an explicit count `n` reads as n and is true |
| `Views.AsciiOnly` | cal/views.py:197 | no ensures; it is `encode('ascii', 'ignore')`, specified by `AsciiOnlySpec` |
| `Views.RawDisposition` | cal/views.py:197 | no ensures; it is the filename text before encoding, specified by `DispositionShape` |
| `Views.Disposition` | cal/views.py:197 | no ensures; it is the Content-Disposition value, specified by `DispositionShape` |
| `Views.AsciiOnlySpec` | cal/views.py:197 | `encode('ascii','ignore')` leaves only ASCII, in order, with each ASCII character kept as often as it occurs, and leaves ASCII text unchanged |
| `Views.AllAsciiConcat` | cal/views.py:197 | joining two ASCII strings gives an ASCII string |
| `Views.IsoDateAscii` | cal/views.py:197 | the `%Y-%m-%d` text is ASCII |
| `Views.AsciiOnlyKeepsAscii` | cal/views.py:197 | dropping non-ASCII from text between ASCII parts only changes the middle part |
| `Views.DispositionShape` | cal/views.py:197 | the header is `filename="<YYYY-MM-DD> - <name>.ics"` with only the name's non-ASCII characters removed; it is all ASCII and a subsequence of the unfiltered text |
| `Views.FindEvent` | cal/views.py:192 | the lookup returns a stored event with that key, or fails only when no stored event has it |
| `Views.EventIcalendar` | cal/views.py:191-197 | NotFound exactly when no stored event has the key; otherwise the Content-Disposition value of such an event |
| `Views.UpdateEvent` | cal/views.py:145-177 | NotFound when an existing event is missing; otherwise the error flag is set, and status 500 returned, exactly when a POST carries an invalid form, else status 200 |
| `Seqs.Filter` | cal/views.py:38 | filtering yields at most as many elements, all from the input and all satisfying the test |
| `Seqs.FilterMembers` | cal/views.py:38 | an element is kept iff it is in the input and passes the test |
| `Seqs.FilterIsSubsequence` | cal/views.py:38 | filtering neither reorders nor duplicates |
| `Seqs.FilterMultiplicity` | cal/views.py:38 | each kept element occurs as often as in the input |
| `Seqs.FilterConcat` | cal/views.py:197 | filtering distributes over concatenation |
| `Seqs.Reversed` | cal/views.py:185 | the reversal has the input's length; `ReversedAt`, `ReversedInvolution` and `ReversedMultiset` give its meaning |
| `Seqs.ReversedAt` | cal/views.py:185 | element k of the reversal is element n-1-k of the input |
| `Seqs.ReversedInvolution` | cal/views.py:185 | reversing twice gives the input back |
| `Seqs.ReversedMultiset` | cal/views.py:208 | reversal is a permutation |

## Left out

- Django's ORM, `render`, `HttpResponse`, templates, `login_required`, `mark_safe` and `prefetch_related` are framework calls whose behaviour is not visible here. Queries are filters over the store sequence, and a response is the value the view computes.
- The table that `HTMLCalendar.formatmonth` appends after the header is left out: Python's `calendar` module is not part of this model. Its week rows, first weekday and padding are not modelled. `Calendar.EventCalendar.FormatMonth` returns the header. `FormatDay` takes one grid position (`day`, `weekday`) as input, with 0 for padding.
- `Calendar.EventCalendar.FormatDay` requires `0 <= weekday < 7`, which is what `HTMLCalendar` passes. Python's negative indexing of `cssclasses` is not modelled.
- `Calendar.EventCalendar.constructor` leaves year and month at 0. Python raises AttributeError when `formatday` runs before `formatmonth`; the model returns InvalidDate instead.
- `Calendar.EventCalendar.FormatDay`, `Views.Disposition`: Python 2's `strftime` raises ValueError for years before 1900. The model formats every year from 1 to 9999.
- `Decimal.ParseLong`: Python 2's `long()` also accepts surrounding whitespace, a trailing `L` and non-ASCII Unicode decimal digits (such as Arabic-Indic digits in the unicode URL argument). The model rejects all three as InvalidArgument.
- Converting the URL's year and month text with `int(...)` is left out: the URL routes are not part of this model. Year and month are integers.
- `date.today()` is a parameter. The clock is not modelled.
- `conditional_escape` is Django's; the calendar takes it as the opaque function `esc`. `get_absolute_url` is defined by the model class, not shown; its value is the record's `url` field.
- The `encode('utf-8')` calls are left out: text and bytes are not distinguished, except for the ASCII filtering of the filename.
- Time zones are left out: datetimes are naive, and Django's time-zone conversion of dates and datetimes is not modelled.
- `Views.EventList`, `Views.CompleteIcal`: the query-set `reverse()` is the sequence reversed. This assumes `get_n` returns an ordered query. Django's `reverse()` flips the ORDER BY, so events that tie keep an unspecified order, and an unordered query is left unchanged; neither case is modelled.
- `Events.SortByStart`: the database leaves events with equal starts in an unspecified order. The contract states only "sorted and a permutation"; the insertion sort keeps one fixed order.
- The iCalendar serialisation (`get_icalendar`, `get_icalendar_event`, `create_calendar`, `to_ical`) is in files that are not part of this model and in an external library. `Views.CompleteIcal` returns the ordered events the document is built from. `Views.EventIcalendar` returns the Content-Disposition value.
- `Event.future.get_n` is defined by the model class, not shown. It is the parameter `getN`.
- `delete_event` only deletes and then saves through the ORM, so there is nothing to state beyond the framework.
- `SpecialListView` is framework configuration.
- `date_list` (`datetimes('startDate', 'year')`) in `index` and `monthly` is an ORM query.
- The `Event.all` and `Event.objects` managers are one store sequence.
- In `update_event`, validating and saving the form, re-reading the event and the `new` flag are ORM and form calls. Only the found/not-found outcome, the error flag and the status are modelled.
- `Views.SpecialEvents`: the description is the Category or Location row that `get_object_or_404` returns. The model gives the name that identifies that row, since names are unique in both tables, and not the row's other fields.
- Line 48 of `formatday`, a second `return`, can never run.
