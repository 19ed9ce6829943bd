/** Event records as the store hands them to the views, and ordering them by start. */
module Events {
  import opened Outcomes
  import opened Dates

  /**
   * One row of the event store. `url` is the value of `get_absolute_url()`, defined by the
   * model class; `category` and `location` are the names of the related rows, if any.
   */
  datatype Event = Event(
    id: int,
    name: string,
    start: DateTime,
    end: Option<DateTime>,
    wikiPage: string,
    url: string,
    category: Option<string>,
    location: Option<string>)

  /** What the datetime fields of a stored row always satisfy. */
  predicate ValidEvent(e: Event)
  {
    ValidDateTime(e.start) && (e.end.Some? ==> ValidDateTime(e.end.value))
  }

  predicate AllValid(s: seq<Event>) { forall e | e in s :: ValidEvent(e) }

  /** Ascending by `startDate`: no event starts before one placed ahead of it. */
  predicate SortedByStart(s: seq<Event>)
  {
    forall i, j | 0 <= i < j < |s| :: !Before(s[j].start, s[i].start)
  }

  lemma PrependSorted(x: Event, s: seq<Event>)
    requires SortedByStart(s)
    requires forall y | y in s :: !Before(y.start, x.start)
    ensures SortedByStart([x] + s)
  {
    var r := [x] + s;
    forall i, j | 0 <= i < j < |r| ensures !Before(r[j].start, r[i].start) {
      if i > 0 {
        assert r[i] == s[i - 1] && r[j] == s[j - 1];
      } else {
        assert r[j] in s;
      }
    }
  }

  /** Puts `e` in front of the first event of `s` that does not start before it. */
  function InsertByStart(e: Event, s: seq<Event>): (r: seq<Event>)
    requires SortedByStart(s)
    ensures SortedByStart(r)
    ensures multiset(r) == multiset(s) + multiset{e}
  {
    if s == [] || !Before(s[0].start, e.start) then
      assert forall y | y in s :: !Before(y.start, e.start) by {
        forall y | y in s ensures !Before(y.start, e.start) {
          var k :| 0 <= k < |s| && s[k] == y;
          if k > 0 {
            BeforeIsStrictOrder(e.start, s[0].start, y.start);
          }
        }
      }
      PrependSorted(e, s);
      [e] + s
    else
      var rest := InsertByStart(e, s[1..]);
      assert multiset(s) == multiset{s[0]} + multiset(s[1..]) by { assert s == [s[0]] + s[1..]; }
      assert forall y | y in rest :: !Before(y.start, s[0].start) by {
        forall y | y in rest ensures !Before(y.start, s[0].start) {
          assert y in multiset(rest);
          if y == e {
            BeforeIsStrictOrder(s[0].start, e.start, e.start);
          } else {
            assert y in s[1..];
            var k :| 0 <= k < |s| - 1 && s[1..][k] == y;
            assert s[k + 1] == y;
          }
        }
      }
      PrependSorted(s[0], rest);
      [s[0]] + rest
  }

  /** `order_by('startDate')`: the same events, ascending by start. */
  function SortByStart(s: seq<Event>): (r: seq<Event>)
    ensures SortedByStart(r)
    ensures multiset(r) == multiset(s)
  {
    if s == [] then [] else
      assert s == [s[0]] + s[1..];
      InsertByStart(s[0], SortByStart(s[1..]))
  }
}
