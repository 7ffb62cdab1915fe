/** The agency listing as its controller test pins it down: no filter gives
    no agencies; the zip-code and event-date filters select agencies with
    matching visible events; every distance in the nested result is measured
    from the one location the request resolves to.

    `Geo.distance_between` is a parameter `dist`, opaque and of any type. */
module AgencyIndex {
  import opened Wrappers
  import opened Schema
  import opened RequesterLocation
  import Events
  import Ser = EventDateSerializer
  import Seqs

  /** One date entry of the listing: the six attributes the listing shows of
      a serialized event date. */
  datatype ListedDate = ListedDate(
    id: int,
    eventId: int,
    capacity: int,
    startTime: string,
    endTime: string,
    date: string)

  datatype EventView<D> = EventView(
    id: int,
    agencyId: int,
    name: string,
    service: Option<string>,
    estimatedDistance: D,
    eventDates: seq<ListedDate>)

  datatype AgencyView<D> = AgencyView(
    id: int,
    name: string,
    estimatedDistance: D,
    events: seq<EventView<D>>)

  predicate HasFilters(p: Params) { p.zipCode.Some? || p.eventDate.Some? }

  /** A date row falls on the requested day when its stored text is the
      requested ISO date with the dashes removed. */
  predicate OnRequestedDay(p: Params, d: EventDate)
  {
    p.eventDate.Some? && d.date == Ser.StripDashes(p.eventDate.value)
  }

  /** An event passes the date filter when no date is requested, or when it
      publishes its dates and has a date row on the requested day. */
  predicate EventMatches(db: Snapshot, p: Params, e: Event)
  {
    p.eventDate.None? ||
    (Events.PublishesDatesFlag(e) && exists d :: d in Events.EventDatesOf(db, e) && OnRequestedDay(p, d))
  }

  function EventsOfAgency(db: Snapshot, p: Params, a: Agency): Event -> bool
  {
    (e: Event) => e.locId == a.id && EventMatches(db, p, e)
  }

  function AgencyFilter(db: Snapshot, p: Params): Agency -> bool
  {
    (a: Agency) => AgencyMatches(db, p, a)
  }

  function OnDay(p: Params): EventDate -> bool
  {
    (d: EventDate) => OnRequestedDay(p, d)
  }

  /** The agency's visible events that pass the date filter, in table order. */
  function AgencyEvents(db: Snapshot, p: Params, a: Agency): (r: seq<Event>)
    ensures forall e :: e in r <==> e in Events.All(db) && e.locId == a.id && EventMatches(db, p, e)
  {
    Seqs.Filter(Events.All(db), EventsOfAgency(db, p, a))
  }

  /** An agency is listed when it serves the requested zip code (if any) and
      has at least one matching event. */
  predicate AgencyMatches(db: Snapshot, p: Params, a: Agency)
  {
    (p.zipCode.None? || p.zipCode.value in a.servedZips) && AgencyEvents(db, p, a) != []
  }

  function MatchingAgencies(db: Snapshot, p: Params): (r: seq<Agency>)
    ensures forall a :: a in r <==> a in db.agencies && AgencyMatches(db, p, a)
  {
    Seqs.Filter(db.agencies, AgencyFilter(db, p))
  }

  /** The event's date rows shown: all of them, or those on the requested day. */
  function ShownDates(db: Snapshot, p: Params, e: Event): (r: seq<EventDate>)
    ensures forall d :: d in r <==> d in Events.EventDatesOf(db, e) && (p.eventDate.Some? ==> OnRequestedDay(p, d))
  {
    if p.eventDate.None? then Events.EventDatesOf(db, e)
    else Seqs.Filter(Events.EventDatesOf(db, e), OnDay(p))
  }

  predicate AllRender(ds: seq<EventDate>) { forall d :: d in ds ==> Ser.Renders(d) }

  /** Every date row the listing shows serializes. Rows of events that are
      not listed, and rows on other days, are never serialized and may hold
      anything. */
  predicate ListingRenders(db: Snapshot, p: Params)
  {
    HasFilters(p) ==>
      forall a, e :: a in MatchingAgencies(db, p) && e in AgencyEvents(db, p, a) ==> AllRender(ShownDates(db, p, e))
  }

  /** The listing's entry for one date row: its id, event id and capacity,
      its times in 12-hour form, and its date in ISO form that gives back the
      stored text without its dashes. */
  function ListedOf(d: EventDate): (l: ListedDate)
    requires Ser.Renders(d)
    ensures l.id == d.id && l.eventId == d.eventId && l.capacity == d.capacity
    ensures l.startTime == Ser.Display(Ser.ClockOf(d.startTimeKey))
    ensures l.endTime == Ser.Display(Ser.ClockOf(d.endTimeKey))
    ensures Ser.IsIsoDate(l.date) && Ser.StripDashes(l.date) == d.date
  {
    var v := Ser.Serialize(d).value;
    ListedDate(v.id, v.eventId, v.capacity, v.startTime, v.endTime, v.date)
  }

  /** The listing's date entries, one per row, in order. */
  function DateViews(ds: seq<EventDate>): (r: seq<ListedDate>)
    requires AllRender(ds)
    ensures |r| == |ds|
    ensures forall i :: 0 <= i < |ds| ==> Ser.Renders(ds[i]) && r[i] == ListedOf(ds[i])
  {
    seq(|ds|, i requires 0 <= i < |ds| => assert ds[i] in ds; ListedOf(ds[i]))
  }

  function EventViewOf<D>(db: Snapshot, p: Params, loc: Location, dist: (Location, Point) -> D, e: Event): EventView<D>
    requires AllRender(ShownDates(db, p, e))
  {
    EventView(e.id, e.locId, e.name, Events.ServiceDescription(db, e), dist(loc, e.point),
      DateViews(ShownDates(db, p, e)))
  }

  function AgencyViewOf<D>(db: Snapshot, p: Params, loc: Location, dist: (Location, Point) -> D, a: Agency): AgencyView<D>
    requires forall e :: e in AgencyEvents(db, p, a) ==> AllRender(ShownDates(db, p, e))
  {
    AgencyView(a.id, a.locName, dist(loc, a.point), EventViews(db, p, loc, dist, AgencyEvents(db, p, a)))
  }

  function EventViews<D>(db: Snapshot, p: Params, loc: Location, dist: (Location, Point) -> D, es: seq<Event>): seq<EventView<D>>
    requires forall e :: e in es ==> AllRender(ShownDates(db, p, e))
  {
    seq(|es|, i requires 0 <= i < |es| => assert es[i] in es; EventViewOf(db, p, loc, dist, es[i]))
  }

  /** The listing. Without a zip-code or event-date filter it is empty;
      otherwise it holds one entry per matching agency, in table order. */
  function Index<D>(db: Snapshot, p: Params, geo: Geo, dist: (Location, Point) -> D): (r: seq<AgencyView<D>>)
    requires ListingRenders(db, p)
    ensures !HasFilters(p) ==> r == []
    ensures HasFilters(p) ==> |r| == |MatchingAgencies(db, p)|
    ensures forall i :: 0 <= i < |r| ==> r[i].id == MatchingAgencies(db, p)[i].id
  {
    if !HasFilters(p) then []
    else
      var loc := UserLocation(p, geo, db.zipCodes);
      AgencyViews(db, p, loc, dist, MatchingAgencies(db, p))
  }

  function AgencyViews<D>(db: Snapshot, p: Params, loc: Location, dist: (Location, Point) -> D, agencies: seq<Agency>): seq<AgencyView<D>>
    requires forall a, e :: a in agencies && e in AgencyEvents(db, p, a) ==> AllRender(ShownDates(db, p, e))
  {
    seq(|agencies|, i requires 0 <= i < |agencies| => assert agencies[i] in agencies; AgencyViewOf(db, p, loc, dist, agencies[i]))
  }

  /** Every distance in the listing, of an agency or of one of its events, is
      measured from the same resolved location of the request. */
  lemma DistancesFromOneLocation<D>(db: Snapshot, p: Params, geo: Geo, dist: (Location, Point) -> D, i: nat)
    requires ListingRenders(db, p)
    requires i < |Index(db, p, geo, dist)|
    ensures var r := Index(db, p, geo, dist)[i];
      var loc := UserLocation(p, geo, db.zipCodes);
      var a := MatchingAgencies(db, p)[i];
      var es := AgencyEvents(db, p, a);
      && r.estimatedDistance == dist(loc, a.point)
      && |r.events| == |es|
      && forall j :: 0 <= j < |es| ==>
           r.events[j].id == es[j].id && r.events[j].estimatedDistance == dist(loc, es[j].point)
  {
  }

  /** Every date entry in the listing belongs to the event it is listed
      under, and when a day is requested it falls on that day: removing the
      dashes of both gives the same text. */
  lemma ListedDatesOnRequestedDay<D>(db: Snapshot, p: Params, geo: Geo, dist: (Location, Point) -> D,
                                     i: nat, j: nat, k: nat)
    requires ListingRenders(db, p)
    requires i < |Index(db, p, geo, dist)|
    requires j < |Index(db, p, geo, dist)[i].events|
    requires k < |Index(db, p, geo, dist)[i].events[j].eventDates|
    ensures var ev := Index(db, p, geo, dist)[i].events[j];
      && ev.eventDates[k].eventId == ev.id
      && (p.eventDate.Some? ==> Ser.StripDashes(ev.eventDates[k].date) == Ser.StripDashes(p.eventDate.value))
  {
    var loc := UserLocation(p, geo, db.zipCodes);
    var a := MatchingAgencies(db, p)[i];
    var es := AgencyEvents(db, p, a);
    var e := es[j];
    var ds := ShownDates(db, p, e);
    assert ds[k] in ds;
    assert Index(db, p, geo, dist)[i] == AgencyViewOf(db, p, loc, dist, a);
    assert Index(db, p, geo, dist)[i].events[j] == EventViewOf(db, p, loc, dist, e);
    assert Index(db, p, geo, dist)[i].events[j].eventDates[k] == ListedOf(ds[k]);
  }

  lemma FilterPair<T(!new)>(x: T, y: T, q: T -> bool)
    ensures Seqs.Filter([x, y], q) == (if q(x) then [x] else []) + (if q(y) then [y] else [])
  {
    assert [x, y][1..] == [y];
    assert [y][1..] == [];
  }

  /** The rows of the controller test's fixture: agency `a` serves `zip` and
      runs event `e`, with date row `de` on `day`; agency `b` serves other
      zip codes and runs event `f`, whose date row `df` is on another day. */
  predicate Fixture(db: Snapshot, a: Agency, b: Agency, e: Event, f: Event, de: EventDate, df: EventDate, zip: string, day: string)
  {
    && db.agencies == [a, b] && db.events == [e, f] && db.eventDates == [de, df]
    && a.id != b.id && e.id != f.id
    && zip in a.servedZips && zip !in b.servedZips
    && e.locId == a.id && f.locId == b.id
    && Events.IsVisible(e) && Events.IsVisible(f)
    && Events.PublishesDatesFlag(e) && Events.PublishesDatesFlag(f)
    && de.eventId == e.id && de.date == Ser.StripDashes(day)
    && df.eventId == f.id && df.date != de.date
  }

  /** The requests the test sends: by `zip`, by `day`, or both. */
  predicate FixtureRequest(p: Params, zip: string, day: string)
  {
    && (p.zipCode == None || p.zipCode == Some(zip))
    && (p.eventDate == None || p.eventDate == Some(day))
    && HasFilters(p)
  }

  lemma FixtureRows(db: Snapshot, a: Agency, b: Agency, e: Event, f: Event, de: EventDate, df: EventDate, zip: string, day: string)
    requires Fixture(db, a, b, e, f, de, df, zip, day)
    ensures Events.All(db) == [e, f]
    ensures Events.EventDatesOf(db, e) == [de]
    ensures Events.EventDatesOf(db, f) == [df]
  {
    FilterPair(e, f, Events.IsVisible);
    FilterPair(de, df, Events.DatesOfEvent(e));
    FilterPair(de, df, Events.DatesOfEvent(f));
  }

  /** Every fixture request selects agency `a` alone, its event `e` alone, and
      the date row `de` alone. */
  lemma FixtureSelection(db: Snapshot, a: Agency, b: Agency, e: Event, f: Event, de: EventDate, df: EventDate,
                         zip: string, day: string, p: Params)
    requires Fixture(db, a, b, e, f, de, df, zip, day)
    requires FixtureRequest(p, zip, day)
    ensures MatchingAgencies(db, p) == [a]
    ensures AgencyEvents(db, p, a) == [e]
    ensures ShownDates(db, p, e) == [de]
  {
    FixtureRows(db, a, b, e, f, de, df, zip, day);
    assert EventMatches(db, p, e) by {
      if p.eventDate.Some? {
        assert de in Events.EventDatesOf(db, e) && OnRequestedDay(p, de);
      }
    }
    FilterPair(e, f, EventsOfAgency(db, p, a));
    assert !AgencyMatches(db, p, b) by {
      if p.zipCode.None? {
        assert !EventMatches(db, p, f);
        FilterPair(e, f, EventsOfAgency(db, p, b));
      }
    }
    FilterPair(a, b, AgencyFilter(db, p));
    if p.eventDate.Some? {
      assert Seqs.Filter([de], OnDay(p)) == [de];
    }
  }

  /** The controller test's scenarios. Whatever latitude and longitude come
      with it, a request by `zip`, by `day` or by both lists exactly agency
      `a` with event `e` and its one date, rendered from 930 to 2200 on
      `day`, every distance measured from the request's resolved location.
      The other agency's date row is never shown, so nothing is required of
      it. */
  lemma ListingScenario<D>(db: Snapshot, a: Agency, b: Agency, e: Event, f: Event, de: EventDate, df: EventDate,
                           zip: string, day: string, p: Params, geo: Geo, dist: (Location, Point) -> D)
    requires Fixture(db, a, b, e, f, de, df, zip, day)
    requires FixtureRequest(p, zip, day)
    requires Ser.IsIsoDate(day)
    requires de.startTimeKey == 930 && de.endTimeKey == 2200 && de.capacity == 25
    ensures ListingRenders(db, p)
    ensures var loc := UserLocation(p, geo, db.zipCodes);
      Index(db, p, geo, dist) == [
        AgencyView(a.id, a.locName, dist(loc, a.point), [
          EventView(e.id, a.id, e.name, Events.ServiceDescription(db, e), dist(loc, e.point), [
            ListedDate(de.id, e.id, 25, "9:30 AM", "10 PM", day)])])]
  {
    var loc := UserLocation(p, geo, db.zipCodes);
    FixtureSelection(db, a, b, e, f, de, df, zip, day, p);
    var listed := ListingDateView(de, day);
    assert AllRender(ShownDates(db, p, e));
    SingleListingRenders(db, p, a, e);
    var ev := FixtureEventView(db, p, loc, dist, e, de, listed);
    SingleAgencyIndex(db, p, geo, dist, a, e, ev);
  }

  lemma SingleAgencyIndex<D>(db: Snapshot, p: Params, geo: Geo, dist: (Location, Point) -> D,
                             a: Agency, e: Event, ev: EventView<D>)
    requires HasFilters(p)
    requires MatchingAgencies(db, p) == [a] && AgencyEvents(db, p, a) == [e]
    requires ListingRenders(db, p) && AllRender(ShownDates(db, p, e))
    requires EventViewOf(db, p, UserLocation(p, geo, db.zipCodes), dist, e) == ev
    ensures Index(db, p, geo, dist) == [AgencyView(a.id, a.locName, dist(UserLocation(p, geo, db.zipCodes), a.point), [ev])]
  {
    var loc := UserLocation(p, geo, db.zipCodes);
    SingleAgencyView(db, p, loc, dist, a, e, ev);
    assert Index(db, p, geo, dist) == AgencyViews(db, p, loc, dist, [a]);
  }

  lemma SingleListingRenders(db: Snapshot, p: Params, a: Agency, e: Event)
    requires MatchingAgencies(db, p) == [a] && AgencyEvents(db, p, a) == [e]
    requires AllRender(ShownDates(db, p, e))
    ensures ListingRenders(db, p)
  {
  }

  lemma SingleAgencyView<D>(db: Snapshot, p: Params, loc: Location, dist: (Location, Point) -> D,
                            a: Agency, e: Event, ev: EventView<D>)
    requires AgencyEvents(db, p, a) == [e]
    requires AllRender(ShownDates(db, p, e))
    requires EventViewOf(db, p, loc, dist, e) == ev
    ensures AgencyViewOf(db, p, loc, dist, a) == AgencyView(a.id, a.locName, dist(loc, a.point), [ev])
  {
    assert EventViews(db, p, loc, dist, [e]) == [ev];
  }

  lemma FixtureEventView<D>(db: Snapshot, p: Params, loc: Location, dist: (Location, Point) -> D,
                            e: Event, de: EventDate, listed: ListedDate) returns (ev: EventView<D>)
    requires ShownDates(db, p, e) == [de]
    requires Ser.Renders(de) && ListedOf(de) == listed
    ensures AllRender(ShownDates(db, p, e))
    ensures ev == EventView(e.id, e.locId, e.name, Events.ServiceDescription(db, e), dist(loc, e.point), [listed])
    ensures EventViewOf(db, p, loc, dist, e) == ev
  {
    SingleDateView(de, listed);
    ev := EventView(e.id, e.locId, e.name, Events.ServiceDescription(db, e), dist(loc, e.point), [listed]);
  }

  lemma SingleDateView(de: EventDate, listed: ListedDate)
    requires Ser.Renders(de) && ListedOf(de) == listed
    ensures AllRender([de]) && DateViews([de]) == [listed]
  {
    assert AllRender([de]) by {
      forall d | d in [de] ensures Ser.Renders(d) { assert d == de; }
    }
    assert DateViews([de])[0] == ListedOf([de][0]);
  }

  /** The fixture's date row serializes as the test expects. */
  lemma ListingDateView(de: EventDate, day: string) returns (listed: ListedDate)
    requires Ser.IsIsoDate(day) && de.date == Ser.StripDashes(day)
    requires de.startTimeKey == 930 && de.endTimeKey == 2200 && de.capacity == 25
    ensures Ser.Renders(de)
    ensures listed == ListedDate(de.id, de.eventId, 25, "9:30 AM", "10 PM", day)
    ensures ListedOf(de) == listed
  {
    Ser.StoredDateRoundTrip(day);
    Ser.ListingTimes();
    listed := ListedDate(de.id, de.eventId, 25, "9:30 AM", "10 PM", day);
  }
}
