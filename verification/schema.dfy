/** The rows the core reads, as immutable values. Each table is a sequence in
    insertion order; associations are foreign-key fields, resolved by lookup. */
module Schema {
  import opened Wrappers

  datatype Point = Point(lat: real, long: real)

  datatype ServiceCategory = ServiceCategory(id: int, name: string)

  /** A service type belongs to one service category. */
  datatype ServiceType = ServiceType(id: int, categoryId: int)

  /** An agency (`loc_id` is its key); `servedZips` is the set of zip codes
      its food bank's counties cover. */
  datatype Agency = Agency(id: int, locName: string, point: Point, servedZips: set<string>)

  /** An event: `locId` names its agency, `serviceId` its service type; the
      three status columns are the flags the scopes test. */
  datatype Event = Event(
    id: int,
    locId: int,
    serviceId: int,
    name: string,
    point: Point,
    statusId: int,
    statusPublishEvent: int,
    statusPublishEventDates: int)

  /** One scheduled occurrence of an event. `date` is the stored `YYYYMMDD`
      text; the time keys are 24-hour `HHMM` integers. */
  datatype EventDate = EventDate(
    id: int,
    eventId: int,
    date: string,
    startTimeKey: int,
    endTimeKey: int,
    capacity: int,
    acceptWalkin: int,
    acceptReservations: int,
    acceptInterest: int)

  /** A per-zip coverage record of an event, with its optional exception note. */
  datatype EventZipCode = EventZipCode(eventId: int, zipCode: string, exceptionNote: Option<string>)

  /** A postal code and its canonical point. */
  datatype ZipCode = ZipCode(zipCode: string, point: Point)

  datatype Snapshot = Snapshot(
    agencies: seq<Agency>,
    serviceTypes: seq<ServiceType>,
    categories: seq<ServiceCategory>,
    events: seq<Event>,
    eventDates: seq<EventDate>,
    eventZipCodes: seq<EventZipCode>,
    zipCodes: seq<ZipCode>)

  /** Primary keys are unique in every keyed table. */
  predicate UniqueIds(db: Snapshot) {
    && (forall i, j :: 0 <= i < |db.agencies| && 0 <= j < |db.agencies| && db.agencies[i].id == db.agencies[j].id ==> i == j)
    && (forall i, j :: 0 <= i < |db.serviceTypes| && 0 <= j < |db.serviceTypes| && db.serviceTypes[i].id == db.serviceTypes[j].id ==> i == j)
    && (forall i, j :: 0 <= i < |db.categories| && 0 <= j < |db.categories| && db.categories[i].id == db.categories[j].id ==> i == j)
    && (forall i, j :: 0 <= i < |db.events| && 0 <= j < |db.events| && db.events[i].id == db.events[j].id ==> i == j)
    && (forall i, j :: 0 <= i < |db.eventDates| && 0 <= j < |db.eventDates| && db.eventDates[i].id == db.eventDates[j].id ==> i == j)
  }
}
