# FreshTrak pantry finder: event dates, events and requester location

A Dafny model of three parts of the FreshTrak pantry finder API, with proofs about each.

**Event-date serializer.** It renders an event date's integer 24-hour time keys as 12-hour text, for example 930 as "9:30 AM" and 2200 as "10 PM". It renders the stored `YYYYMMDD` date as `YYYY-MM-DD`.
- The time rendering is written out as the serializer's own steps:
  - `Integer#to_s`;
  - zero-padding of a three-character key;
  - `String#last(2)`;
  - `Time.strptime('%H%M')`;
  - `strftime('%l %p')` or `strftime('%l:%M %p')`;
  - `lstrip`.
- These steps are proved equal to a plain 12-hour reading of the clock, `Display`. That reading is proved invertible by `ReadDisplay`.
- Date rendering follows `Date.parse`. It uses the Julian calendar up to the 1582 reform, and the days 5 to 14 October 1582 do not exist. A rendered date is proved to give back the stored text once its dashes are removed.

**Event model.** This covers:
- the default scope (active and published) and the `publishes_dates` scope;
- `event_dates` and `event_zip_codes`;
- `exception_note(zip)`;
- `service_description` through the service type and its category;
- `agency_name`;
- the two scopes spec/models/event_spec.rb exercises, `by_service_category` and `with_event_date_id`.

Every scope is an order-preserving filter over a table. Database state is an immutable `Snapshot` of the tables.

**Requester location and the agency listing.** The model follows the agency controller test's helpers `user_location` and `valid_location`:
- a numeric, valid latitude/longitude pair wins;
- otherwise the zip code is looked up;
- otherwise there is no location.

The listing (`AgencyIndex.Index`) is the nested agency → event → event-date result the controller test expects:
- without a zip-code or event-date filter, no agencies;
- with a filter, the agencies serving the zip code that have a visible event on the requested day;
- every distance in the result is measured from the one resolved location.

Three collaborators are function-valued parameters (`RequesterLocation.Geo`):
- `String#numeric?`;
- `String#to_f`;
- `Geo.validate_coordinate_values`.

`Geo.distance_between` is a parameter `dist` of arbitrary result type.

Modules:
- `Wrappers`: `Option` and `Result`.
- `Seqs`: order-preserving filter and first match.
- `Decimal`: digit text and digit values.
- `Schema`: table rows.
- `EventDateSerializer`.
- `Events`.
- `RequesterLocation`.
- `AgencyIndex`.

`exception_note` returns nil when the event has no coverage record for the zip code (app/models/event.rb:26-30); `Events.ExceptionNote` returns `None` there.

## Model

| member | source | states |
|---|---|---|
| Decimal.IntText | app/serializers/event_date_serializer.rb:9 | `Integer#to_s`: for a non-negative key, a digit text without leading zeros whose value is the key; for a negative key, a minus sign followed by such a text for its magnitude |
| Decimal.ValueOfNatText | app/serializers/event_date_serializer.rb:9 | reading the digits `to_s` writes gives back the number |
| Decimal.NatTextWidth | app/serializers/event_date_serializer.rb:10 | `to_s` of a key writes 1, 2, 3, 4 or at least 5 digits according to its range, which decides whether the key is padded |
| Decimal.ValueConcat | app/serializers/event_date_serializer.rb:10 | prefixing digits shifts the value: "0" in front of three digits keeps the key's value |
| EventDateSerializer.Last | app/serializers/event_date_serializer.rb:11 | `last(2)` is the final two characters, or the whole string when it is shorter |
| EventDateSerializer.KeyTextParse | app/serializers/event_date_serializer.rb:9-13 | the padded key text reads as two hour digits below 24 and two minute digits below 60 exactly for keys 100..2359 with minutes below 60; that reading is the key's own hour and minutes, and the last two characters are "00" exactly on the hour |
| EventDateSerializer.StrippedStrftimeIsDisplay | app/serializers/event_date_serializer.rb:12-16 | `lstrip` of the `strftime` text chosen by the "00" test is the unpadded 12-hour reading, with minutes only off the hour |
| EventDateSerializer.FormatTimeKey | app/serializers/event_date_serializer.rb:8-17 | a key renders exactly when it is a valid HHMM/HMM time; the text is the 12-hour reading of that time and starts with a digit (no leading blank); every other key raises |
| EventDateSerializer.DisplayRoundTrip | app/serializers/event_date_serializer.rb:13-15 | the 12-hour text of a clock reads back to that clock, so no two clocks share a text |
| EventDateSerializer.TimeKeyRoundTrip | app/serializers/event_date_serializer.rb:19-28 | a rendered start or end time reads back as the key's own hour and minutes |
| EventDateSerializer.DistinctKeysRenderDistinctly | app/serializers/event_date_serializer.rb:19-28 | two different valid keys never render as the same text |
| EventDateSerializer.TwelveHourClock | app/serializers/event_date_serializer.rb:13-15 | `%l %p`: hours 1-11 are AM as themselves, 12 is 12 PM, 13-23 are PM minus twelve; minutes appear as ":MM" only when non-zero |
| EventDateSerializer.ColonExactlyOffTheHour | app/serializers/event_date_serializer.rb:11-16 | the rendered text has a colon if and only if the key's minutes are non-zero |
| EventDateSerializer.MidnightHourKeysRaise | app/serializers/event_date_serializer.rb:9-13 | keys 0..99 are never padded to four digits, so `strptime` raises on them |
| EventDateSerializer.ListingTimes | spec/controllers/api/agencies_controller_spec.rb:135-136 | key 930 renders "9:30 AM" and key 2200 renders "10 PM" |
| EventDateSerializer.StripDashes | spec/controllers/api/agencies_controller_spec.rb:12 | `delete('-')` keeps exactly the non-dash characters |
| EventDateSerializer.RenderDate | app/serializers/event_date_serializer.rb:30-32 | `Date.parse` of the stored text succeeds exactly for a real calendar day; the result is an ISO date that gives back the stored text without its dashes |
| EventDateSerializer.StoredDateRoundTrip | spec/controllers/api/agencies_controller_spec.rb:11-14 | an ISO date stored with its dashes removed is an 8-digit text that renders back as the same ISO date |
| EventDateSerializer.Serialize | app/serializers/event_date_serializer.rb:4-32 | an event date serializes exactly when both keys and the date render; the id, event id, capacity and flags are copied; the times are the keys' 12-hour readings; the date is an ISO date that gives back the stored text without its dashes; an unreadable start time is the error |
| Events.Active | app/models/event.rb:18 | the `active` scope keeps exactly the events with status 1 |
| Events.Published | app/models/event.rb:19 | the `published` scope keeps exactly the events whose publish flag is 1 |
| Events.All | app/models/event.rb:17 | the default scope keeps exactly the events both active and published |
| Events.DefaultScopeIsActivePublished | app/models/event.rb:17-19 | chaining `active` then `published` is the default scope, order included |
| Events.PublishesDates | app/models/event.rb:20 | `publishes_dates` keeps exactly the visible events whose date-publish flag is 1 |
| Events.EventDatesOf | app/models/event.rb:14-15 | `event_dates` holds exactly the date rows whose event id is the event's |
| Events.CreatedDatesKeepOrder | spec/models/event_spec.rb:18-22 | date rows created for an event come back after its earlier ones, in creation order |
| Events.ZipCodesOf | app/models/event.rb:12-13 | `event_zip_codes` holds exactly the coverage rows whose event id is the event's |
| Events.ExceptionNote | app/models/event.rb:26-30 | nil when no coverage row of the event has the zip code; otherwise the note of the first such row |
| Events.FindServiceType | app/models/event.rb:10 | the service-type lookup finds a row with the key, or none exists |
| Events.FindCategory | app/models/event.rb:11 | the category lookup finds a row with the key, or none exists |
| Events.FindAgency | app/models/event.rb:9 | the agency lookup by `loc_id` finds a row with the key, or none exists |
| Events.ServiceCategoryOf | app/models/event.rb:10-11 | a found category is reached through a service type whose id is the event's service id; when the service type exists and every such type's category exists, a category is found |
| Events.ServiceDescription | app/models/event.rb:22-24 | a description is the name of a category that a service type with the event's service id points to; when those rows exist, there is a description |
| Events.ServiceDescriptionThroughServiceType | app/models/event.rb:22-24 | with unique keys, the description is the name of the category the event's service type points to |
| Events.AgencyName | app/models/event.rb:32-34 | the name is absent exactly when no agency has the event's `loc_id`, and otherwise is such an agency's `loc_name` |
| Events.AgencyNameOfOwner | spec/models/event_spec.rb:29-31 | with unique keys, `agency_name` is the owning agency's `loc_name` |
| Events.ByServiceCategory | spec/models/event_spec.rb:64-75 | keeps exactly the visible events whose service description is the name; a name no category has gives nothing |
| Events.WithEventDateId | spec/models/event_spec.rb:52-62 | keeps exactly the visible events owning a date row with the id; an id no row has gives nothing |
| Events.WithEventDateIdFindsOwner | spec/models/event_spec.rb:52-56 | with unique keys, a date row's id finds exactly its visible owner |
| RequesterLocation.FindZip | spec/controllers/api/agencies_controller_spec.rb:156 | `ZipCode.find_by` returns a row with the code, or none exists |
| RequesterLocation.UserLocation | spec/controllers/api/agencies_controller_spec.rb:147-169 | coordinates exactly when the pair is valid, converted with `to_f`; a zip row exactly when the pair is not valid and the zip code is known; otherwise no location |
| RequesterLocation.PresenceGuardIsRedundant | spec/controllers/api/agencies_controller_spec.rb:147-158 | the key-presence guard in front changes nothing: the helper equals the coordinates, then zip, then nothing order |
| RequesterLocation.NoKeysNoLocation | spec/controllers/api/agencies_controller_spec.rb:148-150 | with no zip code and no complete pair, there is no location |
| RequesterLocation.CoordinatesTakePriority | spec/controllers/api/agencies_controller_spec.rb:152-154 | a valid pair wins whatever zip code comes with it |
| RequesterLocation.InvalidPairIsIgnored | spec/controllers/api/agencies_controller_spec.rb:155-168 | a missing, non-numeric or rejected pair is dropped without error; the result is that of the request without it |
| RequesterLocation.OutOfRangePairWithoutZip | spec/controllers/api/agencies_controller_spec.rb:92-98 | `lat=100.1`, `long=-190.9` with only an event date resolves to no location |
| RequesterLocation.NonNumericPairWithZip | spec/controllers/api/agencies_controller_spec.rb:83-90 | `lat=dog`, `long=cat` with a zip code resolves as the zip code alone |
| AgencyIndex.AgencyEvents | spec/controllers/api/agencies_controller_spec.rb:115-141 | an agency's listed events are exactly its visible events that, when a day is requested, publish their dates and have a date row on that day |
| AgencyIndex.MatchingAgencies | spec/controllers/api/agencies_controller_spec.rb:32-54 | the listed agencies are exactly those serving the requested zip code (if any) that have a listed event |
| AgencyIndex.ShownDates | spec/controllers/api/agencies_controller_spec.rb:130-139 | an event's shown dates are its date rows, only those on the requested day when one is requested |
| AgencyIndex.ListedOf | spec/controllers/api/agencies_controller_spec.rb:131-138 | a listed date entry has exactly the six keys the test expects: the row's id, event id and capacity, its two times in 12-hour form, and an ISO date that gives back the stored text without its dashes |
| AgencyIndex.DateViews | spec/controllers/api/agencies_controller_spec.rb:130-139 | one six-field entry per shown date row, in order |
| AgencyIndex.Index | spec/controllers/api/agencies_controller_spec.rb:25-30 | without a zip-code or event-date filter the listing is empty; otherwise one entry per matching agency, in table order, with that agency's id; only the date rows the listing shows must serialize |
| AgencyIndex.ListedDatesOnRequestedDay | spec/controllers/api/agencies_controller_spec.rb:130-139 | every listed date entry belongs to its event and, when a day is requested, lies on that day |
| AgencyIndex.DistancesFromOneLocation | spec/controllers/api/agencies_controller_spec.rb:112-129 | every agency's and event's distance is measured from the request's one resolved location, and each agency lists its matching events in order |
| AgencyIndex.FixtureSelection | spec/controllers/api/agencies_controller_spec.rb:16-23 | in the test's fixture, a request by zip, by day or both selects the first agency alone, its one event and its one date row; the other agency's zip and date keep it out |
| AgencyIndex.ListingScenario | spec/controllers/api/agencies_controller_spec.rb:32-81 | in that fixture, any such request lists exactly one agency → event → date, with the expected ids, names and service description, the date being the six-field entry with "9:30 AM", "10 PM", capacity 25 and the requested day, every distance from the resolved location; the other agency's date row may hold anything |
| Seqs.FilterFilter | app/models/event.rb:17 | filtering twice is filtering once by both conditions, order included |
| Seqs.FilterConcat | spec/models/event_spec.rb:18-22 | filtering rows appended later appends their filtered rows after the earlier ones |

## Left out

- `has_many :event_hours` and `should_render_association` (app/serializers/event_date_serializer.rb:34-38) and the JSON shaping of every attribute are left out. Only the attribute values are modelled.
- `EventDateSerializer.KeyTextParse` and `EventDateSerializer.StrptimeHourMinute` read exactly four digits. Ruby's `strptime('%H%M')` also accepts "2400", rolling it to midnight, and ignores trailing characters of a key of five or more digits. Such keys are outside the stored HHMM domain, so the model treats them as errors.
- `EventDateSerializer.FormatTimeKey` fails for 2400 and for keys of five or more digits, for the reason above. It is weaker than Ruby on those inputs.
- `EventDateSerializer.FormatTimeKey` reads a key as a time of day with no date. `Time.strptime` fills in today's local date and builds the time with `Time.local`. On a spring-forward day in a zone with daylight saving, a key in the skipped hour (230, say) becomes an hour later and renders "3:30 AM". The model assumes a day with no daylight-saving gap, or a server running in UTC.
- `EventDateSerializer.RenderDate` requires the stored date to be eight digits. `Date.parse` accepts many other textual forms, but event dates are stored as `YYYYMMDD`.
- `EventDateSerializer.Serialize` carries the same eight-digit requirement.
- `AgencyIndex.Index` requires that every date row it shows serializes (`ListingRenders`). A shown row that raises would make the source's response an error, and that path is not modelled in the listing.
- The controller (`Api::AgenciesController`) and its service classes are not part of this model. Within the test's fixture, the listing follows the responses the controller test expects:
  - the zip-code filter uses the agency's served zip codes, its food bank's coverage;
  - the address, city, state, zip, phone and nickname fields of the agency and event entries are left out;
  - the `to_f.to_s` coordinate fields are left out.
- `AgencyIndex.ListingScenario` does not state the `zip` fields the expected agency and event entries carry (spec/controllers/api/agencies_controller_spec.rb:108 and :121), because the views leave them out.
- Outside the fixture, the listing is this model's assumption about the controller, and the test does not pin it down. Two cases:
  - with no day requested, `AgencyIndex.EventMatches` lists an event whose dates are not published, with all its date rows;
  - a request with only a latitude/longitude pair has no filter, so `AgencyIndex.HasFilters` makes its listing empty.
- The collaborators below are parameters, because their code is not part of this model:
  - `String#numeric?`, `String#to_f`, `Geo.validate_coordinate_values` and `Geo.distance_between`;
  - `Date.today`, which sets the fixture day.
- `request_params.to_s.include?(':zip_code')` is modelled as presence of the key. A value that merely contains that text is not modelled.
- `find_by` without an order is modelled as the first row in table order.
- The lemmas that name a single row require unique keys (`Schema.UniqueIds`), as the database's primary keys guarantee.
- `Events.ServiceDescription` and `Events.AgencyName` return `None` where the source would raise on a missing association.
- `dependent: :restrict_with_exception` and `alias_attribute` are left out. The model never deletes rows, and the aliases only rename columns.
- The `Form` model is left out: the "has many forms" test (spec/models/event_spec.rb:24-27), forms' insertion order and `within_range`. The insertion-order property is proved for event dates only.
- The `agency_phone` delegation is left out.
- `by_service_category` and `with_event_date_id` are not defined in app/models/event.rb. They are modelled from what spec/models/event_spec.rb expects of them.
