/** The Event model: its default visibility scope, the `publishes_dates`
    scope, the per-zip exception note, the names reached through its
    associations, and the two scopes its tests exercise by service category
    and by event-date id. Every scope is an order-preserving filter over the
    events table. */
module Events {
  import opened Wrappers
  import opened Schema
  import Seqs

  predicate IsActive(e: Event) { e.statusId == 1 }

  predicate IsPublished(e: Event) { e.statusPublishEvent == 1 }

  predicate PublishesDatesFlag(e: Event) { e.statusPublishEventDates == 1 }

  /** The default scope `active.published`. */
  predicate IsVisible(e: Event) { IsActive(e) && IsPublished(e) }

  /** The `active` scope. */
  function Active(s: seq<Event>): (r: seq<Event>)
    ensures forall e :: e in r <==> e in s && e.statusId == 1
  {
    Seqs.Filter(s, IsActive)
  }

  /** The `published` scope. */
  function Published(s: seq<Event>): (r: seq<Event>)
    ensures forall e :: e in r <==> e in s && e.statusPublishEvent == 1
  {
    Seqs.Filter(s, IsPublished)
  }

  /** `Event.all`: the events the default scope lets through, in table order.
      An event is visible exactly when it is active and published; the other
      three combinations of the two flags are hidden. */
  function All(db: Snapshot): (r: seq<Event>)
    ensures forall e :: e in r <==> e in db.events && e.statusId == 1 && e.statusPublishEvent == 1
  {
    Seqs.Filter(db.events, IsVisible)
  }

  /** Chaining `active` and `published` is the single default-scope filter. */
  lemma DefaultScopeIsActivePublished(db: Snapshot)
    ensures Published(Active(db.events)) == All(db)
  {
    Seqs.FilterFilter(db.events, IsActive, IsPublished, IsVisible);
  }

  /** `Event.publishes_dates`: the visible events whose dates are published. */
  function PublishesDates(db: Snapshot): (r: seq<Event>)
    ensures forall e :: e in r <==> e in All(db) && e.statusPublishEventDates == 1
  {
    Seqs.Filter(All(db), PublishesDatesFlag)
  }

  // ---------------------------------------------------------------------------
  // Associations.

  predicate DateOf(e: Event, d: EventDate) { d.eventId == e.id }

  /** The `event_id` test as a selection predicate. */
  function DatesOfEvent(e: Event): EventDate -> bool { d => DateOf(e, d) }

  /** `event.event_dates`: the date rows whose `event_id` is the event's. */
  function EventDatesOf(db: Snapshot, e: Event): (r: seq<EventDate>)
    ensures forall d :: d in r <==> d in db.eventDates && d.eventId == e.id
  {
    Seqs.Filter(db.eventDates, DatesOfEvent(e))
  }

  /** Dates created for an event come back after its earlier dates, in the
      order they were created. */
  lemma {:induction false} CreatedDatesKeepOrder(db: Snapshot, e: Event, created: seq<EventDate>)
    requires forall i :: 0 <= i < |created| ==> created[i].eventId == e.id
    ensures EventDatesOf(db.(eventDates := db.eventDates + created), e) == EventDatesOf(db, e) + created
  {
    Seqs.FilterConcat(db.eventDates, created, DatesOfEvent(e));
    Seqs.FilterKeepsAll(created, DatesOfEvent(e));
  }

  /** `event.event_zip_codes`: the event's coverage records. */
  function ZipCodesOf(db: Snapshot, e: Event): (r: seq<EventZipCode>)
    ensures forall z :: z in r <==> z in db.eventZipCodes && z.eventId == e.id
  {
    Seqs.Filter(db.eventZipCodes, (z: EventZipCode) => z.eventId == e.id)
  }

  /** `exception_note(zip_code)`: nil when no coverage record of the event has
      that zip; otherwise the note (itself possibly nil) of the first one. */
  function ExceptionNote(db: Snapshot, e: Event, zip: string): (r: Option<string>)
    ensures var zs := ZipCodesOf(db, e);
      (forall i :: 0 <= i < |zs| ==> zs[i].zipCode != zip) ==> r == None
    ensures var zs := ZipCodesOf(db, e);
      forall i :: 0 <= i < |zs| && zs[i].zipCode == zip && (forall j :: 0 <= j < i ==> zs[j].zipCode != zip)
        ==> r == zs[i].exceptionNote
  {
    var zs := ZipCodesOf(db, e);
    match Seqs.FindFirst(zs, HasZip(zip))
    case None => None
    case Some(i) => zs[i].exceptionNote
  }

  function HasZip(zip: string): EventZipCode -> bool { (z: EventZipCode) => z.zipCode == zip }

  /** `ServiceType.find_by(id:)`. */
  function FindServiceType(db: Snapshot, id: int): (r: Option<ServiceType>)
    ensures r.None? <==> forall t :: t in db.serviceTypes ==> t.id != id
    ensures r.Some? ==> r.value in db.serviceTypes && r.value.id == id
  {
    Seqs.First(db.serviceTypes, (t: ServiceType) => t.id == id)
  }

  /** `ServiceCategory.find_by(id:)`. */
  function FindCategory(db: Snapshot, id: int): (r: Option<ServiceCategory>)
    ensures r.None? <==> forall c :: c in db.categories ==> c.id != id
    ensures r.Some? ==> r.value in db.categories && r.value.id == id
  {
    Seqs.First(db.categories, (c: ServiceCategory) => c.id == id)
  }

  /** `Agency.find_by(loc_id:)`. */
  function FindAgency(db: Snapshot, id: int): (r: Option<Agency>)
    ensures r.None? <==> forall a :: a in db.agencies ==> a.id != id
    ensures r.Some? ==> r.value in db.agencies && r.value.id == id
  {
    Seqs.First(db.agencies, (a: Agency) => a.id == id)
  }

  /** The event's service type exists, and every service type with that key
      points to an existing category. */
  predicate LinksResolve(db: Snapshot, e: Event)
  {
    && (exists t :: t in db.serviceTypes && t.id == e.serviceId)
    && (forall t :: t in db.serviceTypes && t.id == e.serviceId ==> exists c :: c in db.categories && c.id == t.categoryId)
  }

  /** `event.service_category`, reached through the event's service type;
      None where a link is missing. */
  function ServiceCategoryOf(db: Snapshot, e: Event): (r: Option<ServiceCategory>)
    ensures r.Some? ==>
      && r.value in db.categories
      && exists t :: t in db.serviceTypes && t.id == e.serviceId && t.categoryId == r.value.id
    ensures LinksResolve(db, e) ==> r.Some?
  {
    match FindServiceType(db, e.serviceId)
    case None => None
    case Some(t) => FindCategory(db, t.categoryId)
  }

  /** `service_description`: the name of the event's service category. None
      stands for the error of asking a missing category for its name. */
  function ServiceDescription(db: Snapshot, e: Event): (r: Option<string>)
    ensures r.Some? ==> exists t, c ::
      && t in db.serviceTypes && t.id == e.serviceId
      && c in db.categories && c.id == t.categoryId && c.name == r.value
    ensures LinksResolve(db, e) ==> r.Some?
  {
    match ServiceCategoryOf(db, e)
    case None => None
    case Some(c) => Some(c.name)
  }

  /** `agency_name`: the `loc_name` of the owning agency, None where the
      agency is missing. */
  function AgencyName(db: Snapshot, e: Event): (r: Option<string>)
    ensures r.None? <==> forall a :: a in db.agencies ==> a.id != e.locId
    ensures r.Some? ==> exists a :: a in db.agencies && a.id == e.locId && a.locName == r.value
  {
    match FindAgency(db, e.locId)
    case None => None
    case Some(a) => Some(a.locName)
  }

  /** With unique keys, the service description is the name of the category
      the event's service type points to. */
  lemma ServiceDescriptionThroughServiceType(db: Snapshot, e: Event, ti: nat, ci: nat)
    requires UniqueIds(db)
    requires ti < |db.serviceTypes| && db.serviceTypes[ti].id == e.serviceId
    requires ci < |db.categories| && db.categories[ci].id == db.serviceTypes[ti].categoryId
    ensures ServiceDescription(db, e) == Some(db.categories[ci].name)
  {
    var t := FindServiceType(db, e.serviceId).value;
    var tj :| 0 <= tj < |db.serviceTypes| && db.serviceTypes[tj] == t;
    assert tj == ti;
    var c := FindCategory(db, t.categoryId).value;
    var cj :| 0 <= cj < |db.categories| && db.categories[cj] == c;
    assert cj == ci;
  }

  /** With unique keys, the agency name is the `loc_name` of the agency whose
      key is the event's `loc_id`. */
  lemma AgencyNameOfOwner(db: Snapshot, e: Event, ai: nat)
    requires UniqueIds(db)
    requires ai < |db.agencies| && db.agencies[ai].id == e.locId
    ensures AgencyName(db, e) == Some(db.agencies[ai].locName)
  {
    var a := FindAgency(db, e.locId).value;
    var aj :| 0 <= aj < |db.agencies| && db.agencies[aj] == a;
    assert aj == ai;
  }

  // ---------------------------------------------------------------------------
  // The scopes the tests exercise.

  /** `by_service_category(name)`: the visible events whose service category
      has that name. */
  function ByServiceCategory(db: Snapshot, name: string): (r: seq<Event>)
    ensures forall e :: e in r <==> e in All(db) && ServiceDescription(db, e) == Some(name)
    ensures (forall c :: c in db.categories ==> c.name != name) ==> r == []
  {
    var r := Seqs.Filter(All(db), e => ServiceDescription(db, e) == Some(name));
    assert r != [] ==> r[0] in r;
    r
  }

  predicate HasDate(db: Snapshot, e: Event, dateId: int)
  {
    exists d :: d in db.eventDates && d.id == dateId && d.eventId == e.id
  }

  /** `with_event_date_id(id)`: the visible events owning the date row with
      that id; nothing when no date row has it. */
  function WithEventDateId(db: Snapshot, dateId: int): (r: seq<Event>)
    ensures forall e :: e in r <==> e in All(db) && HasDate(db, e, dateId)
    ensures (forall d :: d in db.eventDates ==> d.id != dateId) ==> r == []
  {
    var r := Seqs.Filter(All(db), e => HasDate(db, e, dateId));
    assert r != [] ==> r[0] in r;
    r
  }

  /** With unique keys, a date row's id finds exactly its visible owner. */
  lemma WithEventDateIdFindsOwner(db: Snapshot, di: nat, ei: nat)
    requires UniqueIds(db)
    requires di < |db.eventDates| && ei < |db.events|
    requires db.eventDates[di].eventId == db.events[ei].id
    requires IsVisible(db.events[ei])
    ensures WithEventDateId(db, db.eventDates[di].id) == [db.events[ei]]
  {
    var d := db.eventDates[di];
    var e := db.events[ei];
    var p := (x: Event) => HasDate(db, x, d.id);
    var q := (x: Event) => IsVisible(x) && HasDate(db, x, d.id);
    assert q(e);
    forall k | 0 <= k < |db.events| && q(db.events[k]) ensures k == ei {
      var d' :| d' in db.eventDates && d'.id == d.id && d'.eventId == db.events[k].id;
      var j :| 0 <= j < |db.eventDates| && db.eventDates[j] == d';
    }
    Seqs.FilterFilter(db.events, IsVisible, p, q);
    FilterSingle(db.events, q, ei);
  }

  /** A filter that one element alone passes keeps just that element. */
  lemma {:induction false} FilterSingle<T(!new)>(s: seq<T>, p: T -> bool, k: nat)
    requires k < |s| && p(s[k])
    requires forall i :: 0 <= i < |s| && p(s[i]) ==> i == k
    ensures Seqs.Filter(s, p) == [s[k]]
  {
    if k == 0 {
      assert forall i :: 0 <= i < |s[1..]| ==> !p(s[1..][i]);
      Seqs.FilterKeepsAll(s[1..], p);
      NoneKept(s[1..], p);
    } else {
      FilterSingle(s[1..], p, k - 1);
    }
  }

  lemma NoneKept<T(!new)>(s: seq<T>, p: T -> bool)
    requires forall i :: 0 <= i < |s| ==> !p(s[i])
    ensures Seqs.Filter(s, p) == []
  {
  }
}
