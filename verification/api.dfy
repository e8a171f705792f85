/**
 * The `/api/route` endpoint: it validates a JSON body holding a `start`
 * coordinate and a non-empty list of `destinations`, snaps them onto the
 * graph, plans a greedy tour through the snapped nodes, stitches the node
 * path into coordinates and answers `{"route": [[lon, lat], ...]}`.
 * Refusals are `BadRequest` (HTTP 400); a snap that hits a missing edge or
 * node, or a plan that finds no route, is an uncaught error (HTTP 500).
 */
module Api {
  import opened Wrappers
  import opened Json
  import opened Geo
  import Utm
  import opened MultiGraph
  import Snap
  import Search
  import Stitch
  import Tour

  /** Why a request is refused with `BadRequest`. */
  datatype Reason =
    | NotAnObject(name: string)           // "{name} must be an object with 'lat' and 'lon'."
    | NotNumeric(name: string)            // "{name} must include numeric 'lat' and 'lon' fields."
    | BadDestinations                      // "destinations must be a non-empty array of coordinates."
    | BodyNotObject                        // "Request body must be a JSON object."
    | SnapRefused(distance: real, limit: real)  // the snapping distance guard, passed on as text
    | InvalidPayload                       // "Invalid request payload.": any other exception while parsing

  /** How a request ends without a route. */
  datatype Failure =
    | BadRequest(reason: Reason)
    | SnapCrash(error: Snap.SnapError)     // a KeyError out of snapping, not caught
    | NoRoute                              // the planner's RuntimeError, not caught

  /** `request.method` and, for a POST, `request.get_json(silent=True)` (None when absent or undecodable). */
  datatype Request = Options | Post(body: Option<Value>)

  datatype Response = NoContent | RouteBody(body: Value)

  /** `isinstance(x, (int, float))`, which in Python also holds for `True` and `False`. */
  predicate IntOrFloatAsWritten(v: Value) {
    v.Bool? || v.Int? || v.Float?
  }

  /** A JSON number: an `int` that is not a `bool`, or a `float`. */
  predicate Numeric(v: Value) {
    v.Int? || v.Float?
  }

  /**
   * `float(x)` on a value that passed the `isinstance` test: `True` is 1.0
   * and `False` is 0.0; an `int` beyond the range of a double raises
   * OverflowError, which is None here.
   */
  function AsFloat(v: Value): (f: Option<real>)
    requires IntOrFloatAsWritten(v)
    ensures v.Int? ==> (f.Some? <==> FitsFloat(v.i)) && (f.Some? ==> f.value == v.i as real)
    ensures v.Float? ==> f == Some(v.f)
    ensures v.Bool? ==> f == Some(if v.b then 1.0 else 0.0)
  {
    match v
    case Bool(b) => Some(if b then 1.0 else 0.0)
    case Int(i) => if FitsFloat(i) then Some(i as real) else None
    case Float(x) => Some(x)
  }

  /**
   * `_parse_coordinate` as written: an object whose `lat` and `lon` pass
   * the `isinstance` test, read as `(lon, lat)`. An OverflowError out of
   * `float()` is caught by `route_planner`'s generic handler and refused
   * as an invalid payload.
   */
  function ParseCoordinateAsWritten(payload: Value, name: string): (r: Result<Coord, Reason>)
    ensures !payload.Obj? <==> r == Err(NotAnObject(name))
    ensures payload.Obj? ==>
      (r == Err(NotNumeric(name)) <==>
       !IntOrFloatAsWritten(Get(payload.fields, "lat")) || !IntOrFloatAsWritten(Get(payload.fields, "lon")))
    ensures payload.Obj? && IntOrFloatAsWritten(Get(payload.fields, "lat")) && IntOrFloatAsWritten(Get(payload.fields, "lon")) ==>
      (r == Err(InvalidPayload) <==> AsFloat(Get(payload.fields, "lon")).None? || AsFloat(Get(payload.fields, "lat")).None?)
    ensures r.Ok? <==>
      payload.Obj? && IntOrFloatAsWritten(Get(payload.fields, "lat")) && IntOrFloatAsWritten(Get(payload.fields, "lon")) &&
      AsFloat(Get(payload.fields, "lon")).Some? && AsFloat(Get(payload.fields, "lat")).Some?
    ensures r.Ok? ==>
      r.value == Coord(AsFloat(Get(payload.fields, "lon")).value, AsFloat(Get(payload.fields, "lat")).value)
  {
    if !payload.Obj? then Err(NotAnObject(name))
    else
      var lat := Get(payload.fields, "lat");
      var lon := Get(payload.fields, "lon");
      if !IntOrFloatAsWritten(lat) || !IntOrFloatAsWritten(lon) then Err(NotNumeric(name))
      else if AsFloat(lon).None? || AsFloat(lat).None? then Err(InvalidPayload)
      else Ok(Coord(AsFloat(lon).value, AsFloat(lat).value))
  }

  /** The written test lets booleans through: `{"lat": true, "lon": false}` is the point (0, 1). */
  lemma BooleanCoordinateAccepted()
    ensures ParseCoordinateAsWritten(Obj(map["lat" := Bool(true), "lon" := Bool(false)]), "start")
         == Ok(Coord(0.0, 1.0))
  {
    var fields := map["lat" := Bool(true), "lon" := Bool(false)];
    assert Get(fields, "lat") == Bool(true);
    assert Get(fields, "lon") == Bool(false);
  }

  /**
   * `_parse_coordinate` as its message intends: an object with numeric
   * `lat` and `lon`, read as `(lon, lat)`; a boolean is not a number. An
   * integer too large for a double is refused as an invalid payload.
   */
  function ParseCoordinate(payload: Value, name: string): (r: Result<Coord, Reason>)
    ensures !payload.Obj? <==> r == Err(NotAnObject(name))
    ensures payload.Obj? ==>
      (r == Err(NotNumeric(name)) <==> !Numeric(Get(payload.fields, "lat")) || !Numeric(Get(payload.fields, "lon")))
    ensures payload.Obj? && Numeric(Get(payload.fields, "lat")) && Numeric(Get(payload.fields, "lon")) ==>
      (r == Err(InvalidPayload) <==> AsFloat(Get(payload.fields, "lon")).None? || AsFloat(Get(payload.fields, "lat")).None?)
    ensures r.Ok? <==>
      payload.Obj? && Numeric(Get(payload.fields, "lat")) && Numeric(Get(payload.fields, "lon")) &&
      AsFloat(Get(payload.fields, "lon")).Some? && AsFloat(Get(payload.fields, "lat")).Some?
    ensures r.Ok? ==>
      r.value == Coord(AsFloat(Get(payload.fields, "lon")).value, AsFloat(Get(payload.fields, "lat")).value)
  {
    if !payload.Obj? then Err(NotAnObject(name))
    else
      var lat := Get(payload.fields, "lat");
      var lon := Get(payload.fields, "lon");
      if !Numeric(lat) || !Numeric(lon) then Err(NotNumeric(name))
      else if AsFloat(lon).None? || AsFloat(lat).None? then Err(InvalidPayload)
      else Ok(Coord(AsFloat(lon).value, AsFloat(lat).value))
  }

  /** Both readings refuse an integer coordinate beyond the range of a double. */
  lemma OverflowingCoordinateRefused(lat: int, lon: int, name: string)
    requires !FitsFloat(lon)
    ensures ParseCoordinate(Obj(map["lat" := Int(lat), "lon" := Int(lon)]), name) == Err(InvalidPayload)
    ensures ParseCoordinateAsWritten(Obj(map["lat" := Int(lat), "lon" := Int(lon)]), name) == Err(InvalidPayload)
  {
    var fields := map["lat" := Int(lat), "lon" := Int(lon)];
    assert Get(fields, "lat") == Int(lat);
    assert Get(fields, "lon") == Int(lon);
  }

  /** The two readings differ only on boolean fields. */
  lemma ParseAgreesOffBooleans(payload: Value, name: string)
    requires payload.Obj? ==> !Get(payload.fields, "lat").Bool? && !Get(payload.fields, "lon").Bool?
    ensures ParseCoordinate(payload, name) == ParseCoordinateAsWritten(payload, name)
  {
  }

  /** The corrected reading refuses the boolean point. */
  lemma BooleanCoordinateRefused()
    ensures ParseCoordinate(Obj(map["lat" := Bool(true), "lon" := Bool(false)]), "start")
         == Err(NotNumeric("start"))
  {
    var fields := map["lat" := Bool(true), "lon" := Bool(false)];
    assert Get(fields, "lat") == Bool(true);
  }

  /** The name of the `i`-th destination in messages: `destinations[i]`. */
  function DestinationLabel(i: nat): string {
    "destinations[" + Utm.Digits(i) + "]"
  }

  /** Item `j` is the first item from `i` on that fails to parse, and it fails with `e`. */
  predicate FirstFailure(items: seq<Value>, i: nat, j: nat, e: Reason) {
    i <= j < |items| &&
    (forall k :: i <= k < j ==> ParseCoordinate(items[k], DestinationLabel(k)).Ok?) &&
    ParseCoordinate(items[j], DestinationLabel(j)) == Err(e)
  }

  /**
   * The list comprehension of `_parse_destinations` from index `i` on:
   * items are parsed in order and the first failure is raised.
   */
  function ParseItems(items: seq<Value>, i: nat): (r: Result<seq<Coord>, Reason>)
    requires i <= |items|
    ensures r.Ok? ==> |r.value| == |items| - i
    decreases |items| - i
  {
    if i == |items| then Ok([])
    else
      match ParseCoordinate(items[i], DestinationLabel(i))
      case Err(e) => Err(e)
      case Ok(c) =>
        match ParseItems(items, i + 1)
        case Err(e) => Err(e)
        case Ok(cs) => Ok([c] + cs)
  }

  /**
   * The items from `i` on parse exactly when each of them does, and then
   * the results are theirs in order; otherwise the error is that of the
   * first item that fails.
   */
  lemma {:induction false} ParseItemsSpec(items: seq<Value>, i: nat)
    requires i <= |items|
    ensures var r := ParseItems(items, i);
      (r.Ok? <==> forall j :: i <= j < |items| ==> ParseCoordinate(items[j], DestinationLabel(j)).Ok?) &&
      (r.Ok? ==> forall j :: i <= j < |items| ==>
        ParseCoordinate(items[j], DestinationLabel(j)) == Ok(r.value[j - i])) &&
      (r.Err? ==> exists j :: FirstFailure(items, i, j, r.error))
    decreases |items| - i
  {
    if i < |items| {
      ParseItemsSpec(items, i + 1);
      var head := ParseCoordinate(items[i], DestinationLabel(i));
      var rest := ParseItems(items, i + 1);
      if head.Err? {
        assert FirstFailure(items, i, i, head.error);
      } else if rest.Err? {
        var j :| FirstFailure(items, i + 1, j, rest.error);
        assert FirstFailure(items, i, j, rest.error);
      } else {
        var r := [head.value] + rest.value;
        assert ParseItems(items, i) == Ok(r);
        forall j | i <= j < |items|
          ensures ParseCoordinate(items[j], DestinationLabel(j)) == Ok(r[j - i])
        {
          if j > i {
            assert r[j - i] == rest.value[j - (i + 1)];
          }
        }
      }
    }
  }

  /**
   * `_parse_destinations`: a non-empty array whose items all parse, in
   * order; otherwise the first item that fails gives the error.
   */
  function ParseDestinations(payload: Value): (r: Result<seq<Coord>, Reason>)
    ensures !payload.Arr? || payload.items == [] ==> r == Err(BadDestinations)
    ensures r.Ok? ==> payload.Arr? && |r.value| == |payload.items| > 0
    ensures r.Ok? ==> forall j :: 0 <= j < |payload.items| ==>
      ParseCoordinate(payload.items[j], DestinationLabel(j)) == Ok(r.value[j])
    ensures payload.Arr? && payload.items != [] ==>
      (r.Ok? <==> forall j :: 0 <= j < |payload.items| ==> ParseCoordinate(payload.items[j], DestinationLabel(j)).Ok?)
    ensures payload.Arr? && payload.items != [] && r.Err? ==> exists j :: FirstFailure(payload.items, 0, j, r.error)
  {
    if !payload.Arr? || payload.items == [] then Err(BadDestinations)
    else
      ParseItemsSpec(payload.items, 0);
      ParseItems(payload.items, 0)
  }

  /**
   * The request body as a dictionary. A body that is absent, not JSON, or the
   * JSON literal `null` all decode to Python's `None`, which reads as `{}`;
   * any other non-object is refused.
   */
  function Payload(body: Option<Value>): (r: Result<map<string, Value>, Reason>)
    ensures body.None? || body == Some(Null) ==> r == Ok(map[])
    ensures body.Some? && body.value.Obj? ==> r == Ok(body.value.fields)
    ensures body.Some? && !body.value.Obj? && !body.value.Null? ==> r == Err(BodyNotObject)
  {
    match body
    case None => Ok(map[])
    case Some(Null) => Ok(map[])
    case Some(Obj(fields)) => Ok(fields)
    case Some(_) => Err(BodyNotObject)
  }

  /** The start, then the destinations; the first failure is the one reported. */
  function ParseRequest(payload: map<string, Value>): (r: Result<(Coord, seq<Coord>), Reason>)
    ensures r.Ok? <==> ParseCoordinate(Get(payload, "start"), "start").Ok? &&
                       ParseDestinations(Get(payload, "destinations")).Ok?
    ensures ParseCoordinate(Get(payload, "start"), "start").Err? ==>
      r == Err(ParseCoordinate(Get(payload, "start"), "start").error)
    ensures ParseCoordinate(Get(payload, "start"), "start").Ok? && ParseDestinations(Get(payload, "destinations")).Err? ==>
      r == Err(ParseDestinations(Get(payload, "destinations")).error)
    ensures r.Ok? ==> r.value.0 == ParseCoordinate(Get(payload, "start"), "start").value &&
                      r.value.1 == ParseDestinations(Get(payload, "destinations")).value &&
                      r.value.1 != []
  {
    match ParseCoordinate(Get(payload, "start"), "start")
    case Err(e) => Err(e)
    case Ok(start) =>
      match ParseDestinations(Get(payload, "destinations"))
      case Err(e) => Err(e)
      case Ok(destinations) => Ok((start, destinations))
  }

  /** A `(lon, lat)` tuple as JSON writes it: the array `[lon, lat]`. */
  function PairJson(c: Coord): Value {
    Arr([Float(c.lon), Float(c.lat)])
  }

  /** `_serialize_coordinates`: each coordinate as the pair `[lon, lat]`, in order. */
  function SerializeCoordinates(coords: seq<Coord>): (v: Value)
    ensures v.Arr? && |v.items| == |coords|
    ensures forall i :: 0 <= i < |coords| ==> v.items[i] == PairJson(coords[i])
  {
    Arr(seq(|coords|, i requires 0 <= i < |coords| => PairJson(coords[i])))
  }

  /** Reading a route back: an array of `[lon, lat]` float pairs. */
  function ReadCoordinates(v: Value): (r: Option<seq<Coord>>)
    ensures r.Some? ==> v.Arr? && |r.value| == |v.items|
  {
    if !v.Arr? then None
    else if forall i :: 0 <= i < |v.items| ==> IsPair(v.items[i]) then
      Some(seq(|v.items|, i requires 0 <= i < |v.items| && IsPair(v.items[i]) =>
        Coord(v.items[i].items[0].f, v.items[i].items[1].f)))
    else None
  }

  predicate IsPair(v: Value) {
    v.Arr? && |v.items| == 2 && v.items[0].Float? && v.items[1].Float?
  }

  /** Serialising a route loses nothing: reading it back gives the same coordinates. */
  lemma SerializeRoundTrip(coords: seq<Coord>)
    ensures ReadCoordinates(SerializeCoordinates(coords)) == Some(coords)
  {
    var v := SerializeCoordinates(coords);
    assert forall i :: 0 <= i < |v.items| ==> IsPair(v.items[i]);
    assert ReadCoordinates(v).value == coords;
  }

  /** The answer `{"route": [[lon, lat], ...]}`. */
  function RouteJson(coords: seq<Coord>): (v: Value)
    ensures v.Obj? && v.fields.Keys == {"route"} && ReadCoordinates(v.fields["route"]) == Some(coords)
  {
    SerializeRoundTrip(coords);
    Obj(map["route" := SerializeCoordinates(coords)])
  }

  /**
   * How a request that parsed ends, given the outcome of snapping its
   * coordinates: the guard's refusal is a `BadRequest`, any other snapping
   * error escapes, and snapped nodes are routed as `Routed` says.
   */
  ghost predicate Answers(out: Snap.Outcome, gc: Metric, r: Result<Response, Failure>, legs: seq<Search.UcsResult>)
    requires WellFormed(out.state)
  {
    (out.result.Err? && out.result.error.TooFar? ==>
      r == Err(BadRequest(SnapRefused(out.result.error.distance, out.result.error.limit)))) &&
    (out.result.Err? && !out.result.error.TooFar? ==> r == Err(SnapCrash(out.result.error))) &&
    (out.result.Ok? ==> |out.result.value| >= 2 && Routed(out.state, gc, out.result.value, r, legs))
  }

  /**
   * A planner failure is `NoRoute`, and then the tour is stuck; a route is
   * the stitched path of a greedy tour from the first snapped node through
   * the others, as JSON.
   */
  ghost predicate Routed(gs: GraphState, gc: Metric, snapped: seq<Snap.SnapResult>,
                         r: Result<Response, Failure>, legs: seq<Search.UcsResult>)
    requires WellFormed(gs) && |snapped| >= 2
  {
    (r.Err? ==>
      (r == Err(NoRoute) && Search.Stuck(gs, gc, snapped[0].node, (set t | t in Tour.TargetNodes(snapped)), legs))) &&
    (r.Ok? ==> exists path :: r.value == RouteBody(RouteJson(path)) && Tour.TourOf(gs, gc, snapped, path, legs))
  }

  /**
   * `route_planner`. An OPTIONS request is answered with no content. A POST
   * body that is not an object, or a start or destination that does not
   * parse, is refused before the graph is touched. Otherwise the start and
   * the destinations are snapped in that order and the request is answered
   * as `Answers` says.
   */
  method RoutePlanner(g: Graph, o: Snap.Oracles, request: Request)
    returns (r: Result<Response, Failure>, ghost legs: seq<Search.UcsResult>)
    requires WellFormed(g.State()) && NonNegativeLengths(g.State())
    modifies g
    ensures request.Options? ==> r == Ok(NoContent) && g.State() == old(g.State())
    ensures request.Post? && Payload(request.body).Err? ==>
      r == Err(BadRequest(BodyNotObject)) && g.State() == old(g.State())
    ensures request.Post? && Payload(request.body).Ok? && ParseRequest(Payload(request.body).value).Err? ==>
      r == Err(BadRequest(ParseRequest(Payload(request.body).value).error)) && g.State() == old(g.State())
    ensures request.Post? && Payload(request.body).Ok? && ParseRequest(Payload(request.body).value).Ok? ==>
      var parsed := ParseRequest(Payload(request.body).value).value;
      var out := Snap.Snapped(old(g.State()), o, [parsed.0] + parsed.1, Some(Snap.SnapMaxDistance), false);
      g.State() == out.state && Answers(out, o.greatCircle, r, legs)
  {
    legs := [];
    if request.Options? {
      return Ok(NoContent), legs;
    }
    var payload := Payload(request.body);
    if payload.Err? {
      return Err(BadRequest(payload.error)), legs;
    }
    var parsed := ParseRequest(payload.value);
    if parsed.Err? {
      return Err(BadRequest(parsed.error)), legs;
    }
    r, legs := SnapAndPlan(g, o, parsed.value.0, parsed.value.1);
  }

  /** The part of `route_planner` after parsing: snap, plan, stitch. */
  method SnapAndPlan(g: Graph, o: Snap.Oracles, start: Coord, destinations: seq<Coord>)
    returns (r: Result<Response, Failure>, ghost legs: seq<Search.UcsResult>)
    requires WellFormed(g.State()) && NonNegativeLengths(g.State()) && destinations != []
    modifies g
    ensures var out := Snap.Snapped(old(g.State()), o, [start] + destinations, Some(Snap.SnapMaxDistance), false);
      g.State() == out.state && Answers(out, o.greatCircle, r, legs)
  {
    legs := [];
    ghost var initial := g.State();
    var coords := [start] + destinations;
    Snap.SnappedResults(initial, o, coords, Some(Snap.SnapMaxDistance), false);
    Snap.SnappedNonNegative(initial, o, coords, Some(Snap.SnapMaxDistance), false);
    var snapped := Snap.SnapCoords(g, o, coords, Some(Snap.SnapMaxDistance));
    if snapped.Err? {
      if snapped.error.TooFar? {
        return Err(BadRequest(SnapRefused(snapped.error.distance, snapped.error.limit))), legs;
      }
      return Err(SnapCrash(snapped.error)), legs;
    }
    r, legs := PlanAndStitch(g.State(), o.greatCircle, snapped.value);
  }

  /** Plan from the first snapped node through the others, then stitch the node path. */
  method PlanAndStitch(gs: GraphState, gc: Metric, snapped: seq<Snap.SnapResult>)
    returns (r: Result<Response, Failure>, ghost legs: seq<Search.UcsResult>)
    requires WellFormed(gs) && NonNegativeLengths(gs) && |snapped| >= 2 && snapped[0].node in gs.nodes
    ensures Routed(gs, gc, snapped, r, legs)
  {
    var toured;
    toured, legs := Tour.TourThrough(gs, gc, snapped);
    if toured.None? {
      return Err(NoRoute), legs;
    }
    r := Ok(RouteBody(RouteJson(toured.value)));
  }
}
