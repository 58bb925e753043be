/** `RobotService`: the coordinator. It extracts the routes from the raw
    command text, computes every route's end position and reports each one
    as an `(X, Y, direction letter)` triple, in route order. */
module RobotService {
  import opened Wrappers
  import opened Seqs
  import opened Integers
  import opened Text
  import opened Dtos
  import LocationService
  import RoutesService

  /** The `(int X, int Y, char)` triple reported for one robot. */
  type Coordinates = (Int32, Int32, char)

  /** `ConvertDirectionToCharAsync`: the first character of the direction's
      member name. Every name is that one letter, so reading the letter back
      gives the direction again. */
  function ConvertDirectionToChar(direction: Direction): (c: char)
    ensures DirectionName(direction) == [c]
    ensures DirectionFromName([c]) == Some(direction)
  {
    DirectionNameRoundTrip(direction);
    DirectionName(direction)[0]
  }

  /** Different directions are reported by different letters. */
  lemma DirectionCharsDistinct(d1: Direction, d2: Direction)
    requires ConvertDirectionToChar(d1) == ConvertDirectionToChar(d2)
    ensures d1 == d2
  {
    assert DirectionFromName([ConvertDirectionToChar(d1)]) == Some(d2);
  }

  /** `GetCoordinatesFromPositionsAsync`: one triple per position, in
      order, with the position's own X and Y. */
  function GetCoordinatesFromPositions(endPositions: seq<Position>): (r: seq<Coordinates>)
    ensures |r| == |endPositions|
    ensures forall i :: 0 <= i < |r| ==>
      r[i].0 == endPositions[i].x && r[i].1 == endPositions[i].y
      && [r[i].2] == DirectionName(endPositions[i].direction)
  {
    if endPositions == [] then []
    else
      var p := endPositions[0];
      [(p.x, p.y, ConvertDirectionToChar(p.direction))] + GetCoordinatesFromPositions(endPositions[1..])
  }

  /** Projecting positions commutes with concatenating them. */
  lemma {:induction false} CoordinatesConcat(a: seq<Position>, b: seq<Position>)
    ensures GetCoordinatesFromPositions(a + b) == GetCoordinatesFromPositions(a) + GetCoordinatesFromPositions(b)
  {
    if a == [] {
      assert a + b == b;
    } else {
      assert (a + b)[0] == a[0];
      assert (a + b)[1..] == a[1..] + b;
      CoordinatesConcat(a[1..], b);
    }
  }

  /** `GetEndCoordinatesAsync`: all routes are extracted first, so a
      starting-point failure anywhere wins; then the routes' end positions
      are computed in order, the first step-text failure aborting; finally
      the end positions are projected to triples. */
  function GetEndCoordinates(rawRobotsCommands: string): (r: Result<seq<Coordinates>, Error>)
    ensures RoutesService.RoutesFromCommands(rawRobotsCommands).Failure? ==>
      r == Failure(RoutesService.RoutesFromCommands(rawRobotsCommands).error)
    ensures RoutesService.RoutesFromCommands(rawRobotsCommands).Success? ==>
      var routeDtos := RoutesService.RoutesFromCommands(rawRobotsCommands).value;
      (r.Success? <==> forall i :: 0 <= i < |routeDtos| ==> LocationService.RoutesEndPosition(routeDtos[i]).Success?)
      && (r.Success? ==> |r.value| == |routeDtos| && forall i :: 0 <= i < |routeDtos| ==>
            var endPosition := LocationService.RoutesEndPosition(routeDtos[i]).value;
            r.value[i].0 == endPosition.x && r.value[i].1 == endPosition.y
            && [r.value[i].2] == DirectionName(endPosition.direction))
      && (r.Failure? ==> r.error.RouteParseError? && exists k :: (0 <= k < |routeDtos|
            && LocationService.RoutesEndPosition(routeDtos[k]) == Failure(r.error)
            && forall j :: 0 <= j < k ==> LocationService.RoutesEndPosition(routeDtos[j]).Success?))
  {
    var routeDtos :- RoutesService.RoutesFromCommands(rawRobotsCommands);
    var endPositionDtos :- MapAll(routeDtos, LocationService.RoutesEndPosition);
    Success(GetCoordinatesFromPositions(endPositionDtos))
  }

  /** For one robot written as `POS=X,Y,D`, `\r\n` and the steps, the
      reported triple is the location service's end position for the
      formatted starting point and the step text, or that service's
      error. */
  lemma SingleRobotEndCoordinates(x: Int32, y: Int32, direction: Direction, routeSteps: string)
    requires x >= 0 && y >= 0 && routeSteps != [] && AllLetters(routeSteps)
    ensures GetEndCoordinates(RoutesService.SingleRobotCommands(x, y, direction, routeSteps)) ==
      match LocationService.RoutesEndPosition(Route(Position(x, y, direction), routeSteps))
      case Failure(e) => Failure(e)
      case Success(p) => Success([(p.x, p.y, ConvertDirectionToChar(p.direction))])
  {
    var routeDto := Route(Position(x, y, direction), routeSteps);
    RoutesService.SingleRobotRoutes(x, y, direction, routeSteps);
    MapAllSingle(routeDto, LocationService.RoutesEndPosition);
    if LocationService.RoutesEndPosition(routeDto).Success? {
      var p := LocationService.RoutesEndPosition(routeDto).value;
      assert GetCoordinatesFromPositions([p]) == [(p.x, p.y, ConvertDirectionToChar(p.direction))];
    }
  }
}
