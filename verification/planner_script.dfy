/**
 * The command-line planner's GeoJSON handling: reading a FeatureCollection
 * of Point features (the first is the start, the rest are destinations)
 * and writing the planned route back as a FeatureCollection of the start,
 * the numbered destinations and the path. Python's exception classes are
 * kept apart because the script catches only `ValueError`.
 */
module PlannerScript {
  import opened Wrappers
  import opened Json
  import opened Geo
  import Api

  const FeatureCollectionType: string := "FeatureCollection"
  const PointType: string := "Point"
  const MinCoordinateComponents: nat := 2
  const MinPointFeatures: nat := 2

  /** What went wrong, by message. Feature numbers count from 1. */
  datatype Problem =
    | EmptyFile                      // "The GeoJSON file is still empty."
    | Undecodable                    // "Unable to parse JSON: ..."
    | NotFeatureCollection           // "GeoJSON must be a FeatureCollection."
    | NoFeatures                     // "FeatureCollection must contain at least one feature."
    | MissingGeometry(index: nat)    // "Feature #i is missing its geometry."
    | NotPoint(index: nat)           // "Feature #i must be a Point geometry."
    | CoordinatesNotList(index: nat) // "Feature #i coordinates must be a list or tuple."
    | MissingLonLat(index: nat)      // "Feature #i is missing longitude/latitude values."
    | NotNumeric(index: nat)         // "Feature #i coordinates must be numeric."
    | TooFewPoints                   // "Provide at least two Point features (start + destination)."

  /** The exception raised: only a `ValueError` is reported as invalid input. */
  datatype Raised =
    | ValueError(problem: Problem)
    | TypeError(problem: Problem)
    | AttributeError                 // `.get` on something that is not a dict
    | OverflowError                  // `float()` of an int beyond the range of a double

  /** The library calls the script leans on: `json.loads` and `float` of a string. */
  datatype Parsers = Parsers(decode: string -> Option<Value>, floatOf: string -> Option<real>)

  /** `str.isspace` for one character. */
  predicate IsSpace(c: char) {
    c == ' ' || 9 <= c as int <= 13 || 0x1c <= c as int <= 0x1f || c as int == 0x85 ||
    c as int == 0xa0 || c as int == 0x1680 || 0x2000 <= c as int <= 0x200a ||
    c as int == 0x2028 || c as int == 0x2029 || c as int == 0x202f || c as int == 0x205f ||
    c as int == 0x3000
  }

  /** `s` without its leading white space. */
  function StripLeft(s: string): (r: string)
    ensures |r| <= |s| && r == s[|s| - |r|..]
    ensures forall i :: 0 <= i < |s| - |r| ==> IsSpace(s[i])
    ensures r != [] ==> !IsSpace(r[0])
    decreases |s|
  {
    if s != [] && IsSpace(s[0]) then StripLeft(s[1..]) else s
  }

  /** `s` without its trailing white space. */
  function StripRight(s: string): (r: string)
    ensures |r| <= |s| && r == s[..|r|]
    ensures forall i :: |r| <= i < |s| ==> IsSpace(s[i])
    ensures r != [] ==> !IsSpace(r[|r| - 1])
    decreases |s|
  {
    if s != [] && IsSpace(s[|s| - 1]) then StripRight(s[..|s| - 1]) else s
  }

  /** `str.strip()`. */
  function Strip(s: string): string {
    StripRight(StripLeft(s))
  }

  /** Stripping leaves nothing exactly when the text is all white space. */
  lemma StripEmpty(s: string)
    ensures Strip(s) == [] <==> forall i :: 0 <= i < |s| ==> IsSpace(s[i])
  {
    var l := StripLeft(s);
    if Strip(s) == [] {
      // a non-empty `l` starts with a non-space, which StripRight keeps
      assert l == [];
    }
  }

  /** Stripping keeps a middle stretch of the text with no white space at either end. */
  lemma StripShape(s: string)
    ensures exists i, j :: 0 <= i <= j <= |s| && Strip(s) == s[i..j]
    ensures Strip(s) != [] ==> !IsSpace(Strip(s)[0]) && !IsSpace(Strip(s)[|Strip(s)| - 1])
  {
    var i := |s| - |StripLeft(s)|;
    StripSlice(s);
    assert 0 <= i <= i + |Strip(s)| <= |s| && Strip(s) == s[i..i + |Strip(s)|];
    StripEnds(s);
  }

  /** Where the stripped text sits: right after the leading white space. */
  lemma StripSlice(s: string)
    ensures |s| - |StripLeft(s)| + |Strip(s)| <= |s|
    ensures Strip(s) == s[|s| - |StripLeft(s)|..|s| - |StripLeft(s)| + |Strip(s)|]
  {
    var l := StripLeft(s);
    SliceOfSuffix(s, |s| - |l|, |StripRight(l)|);
  }

  /** The stripped text starts and ends with a character that is not white space. */
  lemma StripEnds(s: string)
    ensures Strip(s) != [] ==> !IsSpace(Strip(s)[0]) && !IsSpace(Strip(s)[|Strip(s)| - 1])
  {
    var l := StripLeft(s);
    if StripRight(l) != [] {
      assert StripRight(l)[0] == l[0];
    }
  }

  /** A prefix of a suffix is a slice. */
  lemma SliceOfSuffix<T>(s: seq<T>, i: nat, n: nat)
    requires i + n <= |s|
    ensures s[i..][..n] == s[i..i + n]
  {
  }

  /**
   * `load_feature_collection` on the file's text: stripped text that is
   * empty, undecodable, not a FeatureCollection, or without a non-empty
   * `features` list is refused with `ValueError`; a decoded document that
   * is not an object fails on `.get` with `AttributeError`.
   */
  function LoadFeatureCollection(text: string, p: Parsers): (r: Result<Value, Raised>)
    ensures Strip(text) == [] ==> r == Err(ValueError(EmptyFile))
    ensures Strip(text) != [] && p.decode(Strip(text)).None? ==> r == Err(ValueError(Undecodable))
    ensures Strip(text) != [] && p.decode(Strip(text)).Some? && !p.decode(Strip(text)).value.Obj? ==>
      r == Err(AttributeError)
    ensures r.Ok? ==> Strip(text) != [] && p.decode(Strip(text)) == Some(r.value)
    ensures r.Ok? <==> Strip(text) != [] && p.decode(Strip(text)).Some? && IsFeatureCollection(p.decode(Strip(text)).value)
  {
    var raw := Strip(text);
    if raw == [] then Err(ValueError(EmptyFile))
    else
      match p.decode(raw)
      case None => Err(ValueError(Undecodable))
      case Some(document) =>
        if !document.Obj? then Err(AttributeError)
        else if Get(document.fields, "type") != Str(FeatureCollectionType) then Err(ValueError(NotFeatureCollection))
        else
          var features := Get(document.fields, "features");
          if !features.Arr? || features.items == [] then Err(ValueError(NoFeatures))
          else Ok(document)
  }

  /** An object of type FeatureCollection with a non-empty `features` list. */
  predicate IsFeatureCollection(v: Value) {
    v.Obj? && Get(v.fields, "type") == Str(FeatureCollectionType) &&
    Get(v.fields, "features").Arr? && Get(v.fields, "features").items != []
  }

  /**
   * Why `float(x)` fails: a TypeError or ValueError, which
   * `extract_coordinate` turns into its "must be numeric" ValueError, or an
   * OverflowError, which it lets through.
   */
  datatype FloatFailure = Refused | Overflow

  /**
   * `float(x)` on a decoded value: numbers and booleans convert, an `int`
   * beyond the range of a double overflows, strings convert as `float`
   * parses them, and the rest are refused.
   */
  function FloatOf(v: Value, p: Parsers): (r: Result<real, FloatFailure>)
    ensures v.Float? ==> r == Ok(v.f)
    ensures v.Int? && FitsFloat(v.i) ==> r == Ok(v.i as real)
    ensures r == Err(Overflow) <==> v.Int? && !FitsFloat(v.i)
    ensures v.Bool? ==> r == Ok(if v.b then 1.0 else 0.0)
    ensures v.Str? ==> (r.Ok? <==> p.floatOf(v.s).Some?) && (r.Ok? ==> r.value == p.floatOf(v.s).value)
    ensures v.Null? || v.Arr? || v.Obj? ==> r == Err(Refused)
  {
    match v
    case Null => Err(Refused)
    case Bool(b) => Ok(if b then 1.0 else 0.0)
    case Int(i) => if FitsFloat(i) then Ok(i as real) else Err(Overflow)
    case Float(f) => Ok(f)
    case Str(s) => if p.floatOf(s).Some? then Ok(p.floatOf(s).value) else Err(Refused)
    case Arr(_) => Err(Refused)
    case Obj(_) => Err(Refused)
  }

  /** What `extract_coordinate` raises when `float()` fails on feature `index`. */
  function ConversionError(e: FloatFailure, index: nat): Raised {
    match e
    case Refused => ValueError(NotNumeric(index))
    case Overflow => OverflowError
  }

  /**
   * `extract_coordinate`: the feature's Point geometry read as `(lon, lat)`
   * from the first two components; later components are ignored. Each
   * check fails with its own exception, in the order the code makes them.
   */
  function ExtractCoordinate(feature: Value, index: nat, p: Parsers): (r: Result<Coord, Raised>)
    ensures !feature.Obj? <==> r == Err(AttributeError)
    ensures feature.Obj? && !Get(feature.fields, "geometry").Obj? ==> r == Err(TypeError(MissingGeometry(index)))
    ensures feature.Obj? && Get(feature.fields, "geometry").Obj? ==>
      var geometry := Get(feature.fields, "geometry").fields;
      var coordinates := Get(geometry, "coordinates");
      (Get(geometry, "type") != Str(PointType) ==> r == Err(ValueError(NotPoint(index)))) &&
      (Get(geometry, "type") == Str(PointType) && !coordinates.Arr? ==>
        r == Err(TypeError(CoordinatesNotList(index)))) &&
      (Get(geometry, "type") == Str(PointType) && coordinates.Arr? && |coordinates.items| < MinCoordinateComponents ==>
        r == Err(ValueError(MissingLonLat(index))))
    ensures PointGeometry(feature) ==>
      var cs := Get(Get(feature.fields, "geometry").fields, "coordinates").items;
      (FloatOf(cs[0], p).Err? ==> r == Err(ConversionError(FloatOf(cs[0], p).error, index))) &&
      (FloatOf(cs[0], p).Ok? && FloatOf(cs[1], p).Err? ==> r == Err(ConversionError(FloatOf(cs[1], p).error, index))) &&
      (FloatOf(cs[0], p).Ok? && FloatOf(cs[1], p).Ok? ==> r == Ok(Coord(FloatOf(cs[0], p).value, FloatOf(cs[1], p).value)))
    ensures r.Ok? <==>
      (PointGeometry(feature) &&
       var cs := Get(Get(feature.fields, "geometry").fields, "coordinates").items;
       FloatOf(cs[0], p).Ok? && FloatOf(cs[1], p).Ok?)
    ensures r.Err? && r.error.ValueError? ==> r.error.problem in {NotPoint(index), MissingLonLat(index), NotNumeric(index)}
  {
    if !feature.Obj? then Err(AttributeError)
    else
      var geometry := Get(feature.fields, "geometry");
      if !geometry.Obj? then Err(TypeError(MissingGeometry(index)))
      else if Get(geometry.fields, "type") != Str(PointType) then Err(ValueError(NotPoint(index)))
      else
        var coordinates := Get(geometry.fields, "coordinates");
        if !coordinates.Arr? then Err(TypeError(CoordinatesNotList(index)))
        else if |coordinates.items| < MinCoordinateComponents then Err(ValueError(MissingLonLat(index)))
        else
          match FloatOf(coordinates.items[0], p)
          case Err(e) => Err(ConversionError(e, index))
          case Ok(lon) =>
            match FloatOf(coordinates.items[1], p)
            case Err(e) => Err(ConversionError(e, index))
            case Ok(lat) => Ok(Coord(lon, lat))
  }

  /** A feature object whose geometry is a Point with a coordinate list of at least two components. */
  predicate PointGeometry(feature: Value) {
    feature.Obj? && Get(feature.fields, "geometry").Obj? &&
    var geometry := Get(feature.fields, "geometry").fields;
    Get(geometry, "type") == Str(PointType) &&
    Get(geometry, "coordinates").Arr? && |Get(geometry, "coordinates").items| >= MinCoordinateComponents
  }

  /** Every feature at positions `i` up to `j` (excluded) converts. */
  predicate ConvertsBetween(features: seq<Value>, i: nat, j: nat, p: Parsers)
    requires j <= |features|
  {
    forall k :: i <= k < j ==> ExtractCoordinate(features[k], k + 1, p).Ok?
  }

  /** A first failure after position `i` is the first from `i` on when feature `i` converts. */
  lemma FirstFailureCons(features: seq<Value>, i: nat, e: Raised, p: Parsers)
    requires i < |features| && ExtractCoordinate(features[i], i + 1, p).Ok?
    requires exists j :: i + 1 <= j < |features| && ConvertsBetween(features, i + 1, j, p) &&
                         ExtractCoordinate(features[j], j + 1, p) == Err(e)
    ensures exists j :: i <= j < |features| && ConvertsBetween(features, i, j, p) &&
                        ExtractCoordinate(features[j], j + 1, p) == Err(e)
  {
    var j :| i + 1 <= j < |features| && ConvertsBetween(features, i + 1, j, p) &&
             ExtractCoordinate(features[j], j + 1, p) == Err(e);
    assert ConvertsBetween(features, i, j, p);
  }

  /** The list comprehension over the features from position `i` on, numbering them from `i + 1`. */
  function ExtractAll(features: seq<Value>, i: nat, p: Parsers): (r: Result<seq<Coord>, Raised>)
    requires i <= |features|
    ensures r.Ok? <==> forall j :: i <= j < |features| ==> ExtractCoordinate(features[j], j + 1, p).Ok?
    ensures r.Ok? ==> |r.value| == |features| - i
    ensures r.Ok? ==> forall j :: i <= j < |features| ==> ExtractCoordinate(features[j], j + 1, p) == Ok(r.value[j - i])
    ensures r.Err? ==>
      exists j :: i <= j < |features| && ConvertsBetween(features, i, j, p) &&
                  ExtractCoordinate(features[j], j + 1, p) == Err(r.error)
    decreases |features| - i
  {
    if i == |features| then Ok([])
    else
      match ExtractCoordinate(features[i], i + 1, p)
      case Err(e) => Err(e)
      case Ok(c) =>
        match ExtractAll(features, i + 1, p)
        case Err(e) =>
          FirstFailureCons(features, i, e, p);
          Err(e)
        case Ok(cs) => Ok([c] + cs)
  }

  /**
   * The tail of `parse_points_from_geojson`: every feature converts, in
   * order, and there are at least two; the first is the start and the
   * others are the destinations.
   */
  function PointsOf(features: seq<Value>, p: Parsers): (r: Result<(Coord, seq<Coord>), Raised>)
    ensures r.Ok? ==>
      |features| == |r.value.1| + 1 >= MinPointFeatures &&
      ExtractCoordinate(features[0], 1, p) == Ok(r.value.0) &&
      forall j :: 1 <= j < |features| ==> ExtractCoordinate(features[j], j + 1, p) == Ok(r.value.1[j - 1])
    ensures r == Err(ValueError(TooFewPoints)) <==>
      |features| < MinPointFeatures && forall j :: 0 <= j < |features| ==> ExtractCoordinate(features[j], j + 1, p).Ok?
    ensures (|features| >= MinPointFeatures &&
             forall j :: 0 <= j < |features| ==> ExtractCoordinate(features[j], j + 1, p).Ok?) ==> r.Ok?
    ensures ExtractAll(features, 0, p).Err? ==> r == Err(ExtractAll(features, 0, p).error)
  {
    match ExtractAll(features, 0, p)
    case Err(e) => Err(e)
    case Ok(coordinates) =>
      if |coordinates| < MinPointFeatures then Err(ValueError(TooFewPoints))
      else Ok((coordinates[0], coordinates[1..]))
  }

  /** `parse_points_from_geojson`: load the collection, then read its points. */
  function ParsePoints(text: string, p: Parsers): (r: Result<(Coord, seq<Coord>), Raised>)
    ensures LoadFeatureCollection(text, p).Err? ==> r == Err(LoadFeatureCollection(text, p).error)
    ensures LoadFeatureCollection(text, p).Ok? ==> r == PointsOf(LoadedFeatures(text, p), p)
  {
    match LoadFeatureCollection(text, p)
    case Err(e) => Err(e)
    case Ok(document) => PointsOf(Get(document.fields, "features").items, p)
  }

  /** The `features` list of a loaded document. */
  function LoadedFeatures(text: string, p: Parsers): (fs: seq<Value>)
    requires LoadFeatureCollection(text, p).Ok?
    ensures fs != []
  {
    Get(LoadFeatureCollection(text, p).value.fields, "features").items
  }

  /** A feature object of the output. */
  function Feature(properties: map<string, Value>, geometryType: string, coordinates: Value): Value {
    Obj(map["type" := Str("Feature"), "properties" := Obj(properties),
            "geometry" := Obj(map["type" := Str(geometryType), "coordinates" := coordinates])])
  }

  function StartFeature(start: Coord): Value {
    Feature(map["role" := Str("start")], PointType, Api.PairJson(start))
  }

  /** The destination numbered `index` (from 1). */
  function DestinationFeature(destination: Coord, index: nat): Value {
    Feature(map["role" := Str("destination"), "index" := Int(index)], PointType, Api.PairJson(destination))
  }

  function PathFeature(path: seq<Coord>): Value {
    Feature(map["role" := Str("path")], "LineString", Api.SerializeCoordinates(path))
  }

  /** The features `build_geojson` collects: the start, the numbered destinations, the path. */
  function RouteFeatures(start: Coord, destinations: seq<Coord>, path: seq<Coord>): (fs: seq<Value>)
    ensures |fs| == |destinations| + 2
    decreases |destinations|
  {
    if destinations == [] then [StartFeature(start), PathFeature(path)]
    else
      var init := destinations[..|destinations| - 1];
      var fs := RouteFeatures(start, init, path);
      fs[..|fs| - 1] + [DestinationFeature(Last(destinations), |destinations|), PathFeature(path)]
  }

  /**
   * The route collection holds `n + 2` features: the start first, then
   * destination `i` numbered `i` in input order, then the path.
   */
  lemma {:induction false} RouteFeaturesShape(start: Coord, destinations: seq<Coord>, path: seq<Coord>)
    ensures var fs := RouteFeatures(start, destinations, path);
      |fs| == |destinations| + 2 &&
      fs[0] == StartFeature(start) &&
      (forall i :: 1 <= i <= |destinations| ==> fs[i] == DestinationFeature(destinations[i - 1], i)) &&
      fs[|fs| - 1] == PathFeature(path)
    decreases |destinations|
  {
    if destinations != [] {
      var init := destinations[..|destinations| - 1];
      RouteFeaturesShape(start, init, path);
      var fs := RouteFeatures(start, destinations, path);
      var prev := RouteFeatures(start, init, path);
      forall i | 1 <= i <= |destinations|
        ensures fs[i] == DestinationFeature(destinations[i - 1], i)
      {
        if i < |destinations| {
          assert fs[i] == prev[i];
          assert init[i - 1] == destinations[i - 1];
        }
      }
    }
  }

  /** Reading the built collection's Point features back gives the start and the destinations. */
  lemma RouteFeaturesReadBack(start: Coord, destinations: seq<Coord>, path: seq<Coord>, p: Parsers)
    ensures var fs := RouteFeatures(start, destinations, path);
      ExtractCoordinate(fs[0], 1, p) == Ok(start) &&
      forall i :: 1 <= i <= |destinations| ==> ExtractCoordinate(fs[i], i + 1, p) == Ok(destinations[i - 1])
  {
    RouteFeaturesShape(start, destinations, path);
    var fs := RouteFeatures(start, destinations, path);
    PointReadBack(map["role" := Str("start")], start, 1, p);
    forall i | 1 <= i <= |destinations|
      ensures ExtractCoordinate(fs[i], i + 1, p) == Ok(destinations[i - 1])
    {
      PointReadBack(map["role" := Str("destination"), "index" := Int(i)], destinations[i - 1], i + 1, p);
    }
  }

  /** One written Point feature reads back as its coordinate. */
  lemma PointReadBack(properties: map<string, Value>, c: Coord, index: nat, p: Parsers)
    ensures ExtractCoordinate(Feature(properties, PointType, Api.PairJson(c)), index, p) == Ok(c)
  {
    var f := Feature(properties, PointType, Api.PairJson(c));
    var geometry := map["type" := Str(PointType), "coordinates" := Api.PairJson(c)];
    assert Get(f.fields, "geometry") == Obj(geometry);
    assert Get(geometry, "type") == Str(PointType);
    assert Get(geometry, "coordinates") == Api.PairJson(c);
  }

  /** `build_geojson`: the start, one feature per destination numbered from 1, and the path. */
  method BuildGeojson(start: Coord, destinations: seq<Coord>, path: seq<Coord>) returns (v: Value)
    ensures v == Obj(map["type" := Str(FeatureCollectionType),
                         "features" := Arr(RouteFeatures(start, destinations, path))])
  {
    var features := [StartFeature(start)];
    for idx := 1 to |destinations| + 1
      invariant features + [PathFeature(path)] == RouteFeatures(start, destinations[..idx - 1], path)
    {
      assert destinations[..idx][..idx - 1] == destinations[..idx - 1];
      features := features + [DestinationFeature(destinations[idx - 1], idx)];
    }
    assert destinations[..|destinations|] == destinations;
    features := features + [PathFeature(path)];
    v := Obj(map["type" := Str(FeatureCollectionType), "features" := Arr(features)]);
  }
}
