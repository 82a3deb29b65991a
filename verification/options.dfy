/** The autosuggest options the control collects, and the option each property observer
    of `W3wTextField` builds from the value it was given. */
module Options {
  import opened Wrappers
  import opened Text
  import opened Geo

  /** `AutoSuggestOption`: one named backend parameter each. */
  datatype AutoSuggestOption =
    | NumberResults(numberOfResults: int)
    | Focus(focus: Coordinate)
    | NumberFocusResults(numberFocusResults: int)
    | ClipToCountry(country: string)
    | BoundingBox(southLat: real, westLng: real, northLat: real, eastLng: real)
    | BoundingCircle(lat: real, lng: real, kilometers: real)
    | BoundingPolygon(polygon: seq<Coordinate>)

  /** The `autoFocus` observer: the "lat,lng" string gives a focus option only when the
      point is a valid coordinate; latitude comes from the first token, longitude from
      the last. A string with no tokens force-unwraps `nil`. */
  function FocusOption(strtod: string -> real, s: string): (r: Result<Option<AutoSuggestOption>>)
    ensures var t := Split(s, ',');
      && (r.Failure? <==> t == [])
      && (r.Success? ==>
            var p := Coordinate(Atof(strtod, t[0]), Atof(strtod, t[|t| - 1]));
            r.value == if IsValid(p) then Some(Focus(p)) else None)
  {
    match ParseCoordinates(strtod, s)
    case Failure(trap) => Failure(trap)
    case Success(p) => Success(if IsValid(p) then Some(Focus(p)) else None)
  }

  /** The `clipToBoundingBox` observer: south-west from the first pair, north-east from
      the last pair. Fewer than two tokens (no pair) force-unwraps `nil`. */
  function BoundingBoxOption(strtod: string -> real, s: string): (r: Result<AutoSuggestOption>)
    ensures r.Failure? <==> |Split(s, ',')| < 2
    ensures r.Success? ==> r.value.BoundingBox?
    ensures r.Success? ==>
      var t := Split(s, ',');
      r.value.southLat == Atof(strtod, t[0]) && r.value.westLng == Atof(strtod, t[1])
    ensures r.Success? ==>
      var t := Split(s, ','); var m := |t| / 2;
      r.value.northLat == Atof(strtod, t[2 * m - 2]) && r.value.eastLng == Atof(strtod, t[2 * m - 1])
  {
    var t := Split(s, ',');
    var clip := ClipOfPairs(strtod, s).coordinates;
    if clip == [] then Failure(ForceUnwrapOfNil)
    else
      var first := clip[0];
      var last := clip[|clip| - 1];
      assert first == PairOf(strtod, t[0], t[1]);
      assert last == PairOf(strtod, t[2 * (|clip| - 1)], t[2 * (|clip| - 1) + 1]);
      Success(BoundingBox(first.latitude, first.longitude, last.latitude, last.longitude))
  }

  /** The `clipToCircle` observer: the centre is the first pair and the radius is the
      last token read by `NSString.doubleValue` (the parameter `doubleValue`). Fewer than
      two tokens force-unwraps `nil`. */
  function CircleOption(strtod: string -> real, doubleValue: string -> real, s: string): (r: Result<AutoSuggestOption>)
    ensures var t := Split(s, ',');
      && (r.Failure? <==> |t| < 2)
      && (r.Success? ==>
            r.value == BoundingCircle(Atof(strtod, t[0]), Atof(strtod, t[1]), doubleValue(t[|t| - 1])))
  {
    match ClipCircle(strtod, s)
    case Failure(trap) => Failure(trap)
    case Success(clip) =>
      if clip.coordinates == [] then Failure(ForceUnwrapOfNil)
      else
        var centre := clip.coordinates[0];
        Success(BoundingCircle(centre.latitude, centre.longitude, doubleValue(clip.kilometers)))
  }

  /** The `clipToPolygon` observer: every pair becomes a vertex, in order, with no limit
      on their number; it never traps, an empty string giving an empty polygon. */
  function PolygonOption(strtod: string -> real, s: string): (r: AutoSuggestOption)
    ensures var t := Split(s, ',');
      && r.BoundingPolygon?
      && |r.polygon| == |t| / 2
      && forall k :: 0 <= k < |r.polygon| ==> r.polygon[k] == PairOf(strtod, t[2 * k], t[2 * k + 1])
  {
    BoundingPolygon(ClipOfPairs(strtod, s).coordinates)
  }
}
