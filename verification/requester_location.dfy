/** Resolving where a request comes from, as the agency listing's tests
    compute it (`user_location` and `valid_location`): a numeric, valid
    latitude/longitude pair wins; otherwise the zip code is looked up;
    otherwise there is no location.

    Three collaborators whose code is not part of this model are parameters:
    `String#numeric?`, `String#to_f` and `Geo.validate_coordinate_values`. */
module RequesterLocation {
  import opened Wrappers
  import opened Schema
  import Seqs

  /** The query parameters of a request; a key is present when its field is
      Some. */
  datatype Params = Params(
    zipCode: Option<string>,
    lat: Option<string>,
    long: Option<string>,
    eventDate: Option<string>)

  /** The collaborators the resolution consults. */
  datatype Geo = Geo(
    numeric: string -> bool,
    toF: string -> real,
    validCoordinates: (real, real) -> bool)

  /** The resolved location: a coordinate pair, a zip-code row, or nil. */
  datatype Location = Coords(lat: real, long: real) | ZipPoint(zip: ZipCode) | NoLocation

  /** `valid_location`: both keys present, both values numeric, and the
      converted pair accepted by the coordinate check. */
  predicate ValidLocation(p: Params, geo: Geo)
  {
    && p.lat.Some? && p.long.Some?
    && geo.numeric(p.lat.value) && geo.numeric(p.long.value)
    && geo.validCoordinates(geo.toF(p.lat.value), geo.toF(p.long.value))
  }

  /** `ZipCode.find_by(zip_code:)`: the first row with that code. */
  function FindZip(zips: seq<ZipCode>, code: string): (r: Option<ZipCode>)
    ensures r.None? <==> forall z :: z in zips ==> z.zipCode != code
    ensures r.Some? ==> r.value in zips && r.value.zipCode == code
  {
    Seqs.First(zips, (z: ZipCode) => z.zipCode == code)
  }

  /** `user_location`. A valid pair gives its coordinates whatever else was
      sent; otherwise a zip code present gives its row, if the code is known;
      everything else gives no location. */
  function UserLocation(p: Params, geo: Geo, zips: seq<ZipCode>): (r: Location)
    ensures r.Coords? <==> ValidLocation(p, geo)
    ensures r.Coords? ==> r.lat == geo.toF(p.lat.value) && r.long == geo.toF(p.long.value)
    ensures r.ZipPoint? <==> !ValidLocation(p, geo) && p.zipCode.Some? && FindZip(zips, p.zipCode.value).Some?
    ensures r.ZipPoint? ==> r.zip in zips && r.zip.zipCode == p.zipCode.value
  {
    if !(p.zipCode.Some? || (p.lat.Some? && p.long.Some?)) then NoLocation
    else if ValidLocation(p, geo) then Coords(geo.toF(p.lat.value), geo.toF(p.long.value))
    else if p.zipCode.Some? then
      match FindZip(zips, p.zipCode.value)
      case Some(z) => ZipPoint(z)
      case None => NoLocation
    else NoLocation
  }

  /** The resolution order stated directly, with no presence guard in front:
      coordinates, then zip, then nothing. */
  function Resolve(p: Params, geo: Geo, zips: seq<ZipCode>): Location
  {
    if ValidLocation(p, geo) then Coords(geo.toF(p.lat.value), geo.toF(p.long.value))
    else if p.zipCode.None? then NoLocation
    else match FindZip(zips, p.zipCode.value)
      case Some(z) => ZipPoint(z)
      case None => NoLocation
  }

  /** The presence guard of `user_location` changes nothing: the helper is
      exactly the coordinates-then-zip order. */
  lemma PresenceGuardIsRedundant(p: Params, geo: Geo, zips: seq<ZipCode>)
    ensures UserLocation(p, geo, zips) == Resolve(p, geo, zips)
  {
  }

  /** No zip code and no complete pair: no location. */
  lemma NoKeysNoLocation(p: Params, geo: Geo, zips: seq<ZipCode>)
    requires p.zipCode.None? && !(p.lat.Some? && p.long.Some?)
    ensures UserLocation(p, geo, zips) == NoLocation
  {
  }

  /** A valid pair takes priority over any zip code sent with it. */
  lemma CoordinatesTakePriority(p: Params, geo: Geo, zips: seq<ZipCode>, zip: Option<string>)
    requires ValidLocation(p, geo)
    ensures UserLocation(p.(zipCode := zip), geo, zips) == Coords(geo.toF(p.lat.value), geo.toF(p.long.value))
  {
    assert ValidLocation(p.(zipCode := zip), geo);
  }

  /** A pair that is missing, non-numeric or out of range is ignored without
      error: the request resolves as if it carried no latitude or longitude.
      With a zip code that is the zip lookup; without one, no location. */
  lemma InvalidPairIsIgnored(p: Params, geo: Geo, zips: seq<ZipCode>)
    requires !ValidLocation(p, geo)
    ensures UserLocation(p, geo, zips) == UserLocation(p.(lat := None, long := None), geo, zips)
    ensures p.zipCode.None? ==> UserLocation(p, geo, zips) == NoLocation
  {
  }

  /** A coordinate check that accepts only latitudes in [-90, 90] and
      longitudes in [-180, 180]. */
  ghost predicate RejectsOutOfRange(geo: Geo)
  {
    forall lat: real, long: real :: geo.validCoordinates(lat, long) ==> -90.0 <= lat <= 90.0 && -180.0 <= long <= 180.0
  }

  /** The listing's scenario with `lat=100.1`, `long=-190.9` and an event date
      but no zip: no location. */
  lemma OutOfRangePairWithoutZip(geo: Geo, zips: seq<ZipCode>, date: string)
    requires RejectsOutOfRange(geo)
    requires geo.toF("100.1") == 100.1 && geo.toF("-190.9") == -190.9
    ensures UserLocation(Params(None, Some("100.1"), Some("-190.9"), Some(date)), geo, zips) == NoLocation
  {
  }

  /** The listing's scenario with `lat=dog`, `long=cat` and a zip code: the
      same location as the zip code alone. */
  lemma NonNumericPairWithZip(geo: Geo, zips: seq<ZipCode>, zip: string)
    requires !geo.numeric("dog")
    ensures UserLocation(Params(Some(zip), Some("dog"), Some("cat"), None), geo, zips)
         == UserLocation(Params(Some(zip), None, None, None), geo, zips)
  {
  }
}
