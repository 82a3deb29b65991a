/** Coordinates and geographic clips parsed from comma-separated strings
    (`Coordinates` and `Clip` in Sources/W3wTextField.swift). Numbers are read by C's
    `atof`; the numeric reading itself is a parameter `strtod` of the model, so every
    statement here holds whatever number `atof` makes of a token. */
module Geo {
  import opened Wrappers
  import opened Text

  /** `CLLocationCoordinate2D`. */
  datatype Coordinate = Coordinate(latitude: real, longitude: real)

  /** `CLLocationCoordinate2DIsValid`. */
  predicate IsValid(c: Coordinate) {
    -90.0 <= c.latitude <= 90.0 && -180.0 <= c.longitude <= 180.0
  }

  /** C's `atof`: leading white space is skipped, then `strtod` reads the rest. */
  function Atof(strtod: string -> real, s: string): real {
    strtod(DropLeading(s, IsCSpace))
  }

  /** `atof` skips all the leading white space and nothing more: it reads the string
      from the first character that is not white space. */
  lemma AtofSkipsBlanks(strtod: string -> real, s: string)
    ensures exists n ::
              && 0 <= n <= |s| && Atof(strtod, s) == strtod(s[n..])
              && (forall k :: 0 <= k < n ==> IsCSpace(s[k]))
              && (n == |s| || !IsCSpace(s[n]))
  {
    var rest := DropLeading(s, IsCSpace);
    DropLeadingSuffix(s, IsCSpace);
    assert rest == s[|s| - |rest|..];
  }

  /** `Coordinates(coordinateString:)`: latitude from the first comma-separated piece,
      longitude from the last. A string without pieces force-unwraps `nil`. */
  function ParseCoordinates(strtod: string -> real, s: string): (r: Result<Coordinate>)
    ensures r.Failure? <==> forall i :: 0 <= i < |s| ==> s[i] == ','
    ensures r.Failure? ==> r.trap == ForceUnwrapOfNil
    ensures IsPiece(s, ',') ==> r == Success(Coordinate(Atof(strtod, s), Atof(strtod, s)))
  {
    SplitSingle(s, ',');
    var pieces := Split(s, ',');
    if pieces == [] then Failure(ForceUnwrapOfNil)
    else Success(Coordinate(Atof(strtod, pieces[0]), Atof(strtod, pieces[|pieces| - 1])))
  }

  /** The Clip initialisers rebuild each pair as the string "a, b" and parse it again;
      that yields latitude `atof(a)` and longitude `atof(b)`, because `atof` skips the
      blank after the comma. */
  lemma {:induction false} ParsePairString(strtod: string -> real, a: string, b: string)
    requires IsPiece(a, ',') && IsPiece(b, ',')
    ensures ParseCoordinates(strtod, a + ", " + b) == Success(PairOf(strtod, a, b))
  {
    var b' := " " + b;
    assert b'[1..] == b;
    assert ',' !in b' by {
      forall i | 0 <= i < |b'| ensures b'[i] != ',' {
        if i > 0 { assert b'[i] == b[i - 1]; }
      }
    }
    assert Join([a, b'], ',') == a + ", " + b by {
      assert Join([a, b'], ',') == a + [','] + Join([b'], ',');
    }
    SplitJoin([a, b'], ',');
    assert DropLeading(b', IsCSpace) == DropLeading(b, IsCSpace);
  }

  /** The coordinate a pair of tokens denotes: (`atof(a)`, `atof(b)`). */
  function PairOf(strtod: string -> real, a: string, b: string): Coordinate {
    Coordinate(Atof(strtod, a), Atof(strtod, b))
  }

  /** The `stride(from: 0, to: input.count - 1, by: 2)` loop of the Clip initialisers,
      from index `i` on: one coordinate per index `i, i + 2, ...` below `count - 1`, so a
      trailing unpaired token is dropped. */
  function StridePairs(strtod: string -> real, input: seq<string>, i: nat): (r: seq<Coordinate>)
    requires ArePieces(input, ',')
    ensures |r| == if i < |input| then (|input| - i) / 2 else 0
    ensures forall k :: 0 <= k < |r| ==>
      r[k] == PairOf(strtod, input[i + 2 * k], input[i + 2 * k + 1])
    decreases |input| - i
  {
    if i + 1 < |input| then
      ParsePairString(strtod, input[i], input[i + 1]);
      var pair := ParseCoordinates(strtod, input[i] + ", " + input[i + 1]).value;
      var rest := StridePairs(strtod, input, i + 2);
      assert forall k :: 1 <= k <= |rest| ==> i + 2 * k == (i + 2) + 2 * (k - 1);
      [pair] + rest
    else
      []
  }

  /** `Clip`: the parsed pairs, and for a circle the raw radius token. */
  datatype Clip = Clip(coordinates: seq<Coordinate>, kilometers: string)

  /** `Clip(polygon:)` and `Clip(boundingBox:)`, whose bodies are identical: the tokens
      taken two at a time. A string of `n` tokens gives `n / 2` pairs, pair `k` being
      (`atof` of token `2k`, `atof` of token `2k + 1`); the 25-pair and 2-pair limits
      the struct declares are never consulted. */
  function ClipOfPairs(strtod: string -> real, s: string): (r: Clip)
    ensures var t := Split(s, ',');
      && |r.coordinates| == |t| / 2
      && forall k :: 0 <= k < |r.coordinates| ==>
           r.coordinates[k] == PairOf(strtod, t[2 * k], t[2 * k + 1])
    ensures r.kilometers == ""
  {
    Clip(StridePairs(strtod, Split(s, ','), 0), "")
  }

  /** `Clip(circle:)`: the pairs as above and the LAST token as the radius string, even
      when that token was also used in a pair. No tokens force-unwraps `nil`. */
  function ClipCircle(strtod: string -> real, s: string): (r: Result<Clip>)
    ensures var t := Split(s, ',');
      && (r.Failure? <==> t == [])
      && (r.Success? ==>
           && r.value.kilometers == t[|t| - 1]
           && |r.value.coordinates| == |t| / 2
           && forall k :: 0 <= k < |r.value.coordinates| ==>
                r.value.coordinates[k] == PairOf(strtod, t[2 * k], t[2 * k + 1]))
  {
    var input := Split(s, ',');
    var coordinates := StridePairs(strtod, input, 0);
    if input == [] then Failure(ForceUnwrapOfNil)
    else Success(Clip(coordinates, input[|input| - 1]))
  }
}
