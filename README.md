# Traveler: robot routes on a grid

Traveler reads a text of robot commands and reports where each robot ends
up. Robot blocks are separated by the marker `POS=`; any non-empty text
before the first marker is a block too. A block holds a
starting line `X,Y,Direction` and zero or more lines of step letters
(`F` forward, `B` backward, `L` turn left, `R` turn right); a block with no
step line is a robot that stays where it starts. For every robot,
in input order, the program reports the triple `(X, Y, direction letter)` of
its end position.

The work is split over three services, and the model keeps that split:

- **`RoutesService`** (`RoutesService.dfy`) turns the raw text into routes:
  - it drops empty lines and `//` comment lines;
  - it cuts the text into blocks at `POS=`;
  - from each block it reads the starting point from the first non-empty
    line, and glues the remaining non-empty lines together into the step
    text.

  The starting point is parsed field by field (X, then Y, then the
  direction name). Its coordinates are range-checked only once all three
  fields parse.
- **`LocationService`** (`LocationService.dfy`) validates a route's step
  text and folds the steps over the starting position. The fold drives the
  orientation state machine: turns rotate in place and moves go one square
  along the heading, with north decreasing Y.
- **`RobotService`** (`RobotService.dfy`) is the coordinator. It extracts
  all routes, computes every end position and projects each one to a
  triple.

Supporting modules:

- `Wrappers.dfy`: `Option`, `Result`, and `Outcome` for validators.
- `Seqs.dfy`:
  - `Filter` for LINQ `Where`;
  - `MapAll` for a `foreach`/`Select` whose body may throw. The first
    failure aborts the whole computation.
- `Text.dfy`: the .NET string operations the services use, all ordinal:
  - `Split(string)` and `Join`;
  - `Trim` and `char.IsWhiteSpace`;
  - `char.IsLetter`;
  - case-insensitive name matching.
- `Integers.dfy`:
  - 32-bit `int` with the unchecked wrap-around of C# arithmetic;
  - `int.TryParse`;
  - decimal formatting of integers.
- `Dtos.dfy`: the DTOs and enums, and the error taxonomy.

The exceptions of the source become `Failure` values of one `Error` type.
The first exception that would be thrown is the error returned.

| C# exception | `Error` constructor |
|---|---|
| `RouteParseException` | `RouteParseError(reason)` |
| `StartingPointParseException` | `StartingPointParseError(reason)` |
| `StartingPointOutOfRangeException` | `StartingPointOutOfRangeError(coordinate)` |
| `InvalidOperationException` from `.First` on a block with no non-empty line | `NoStartingLine` |

The state-changing loops of the source are methods with loop invariants.
Each one is proved equal to the specification function that the rest of
the model and the lemmas use:

- `ParseRouteAsync` fills a step list;
- `CalculateRouteEndPointAsync` appends to the list of route coordinates;
- `GetRoutesFromCommandsAsync` appends one route per block. Its `foreach`
  is the generic loop `Seqs.MapEach`, run with one block's route as the
  body.

The turn and move case tables, and the LINQ pipelines, are functions.

Some functions are definitions that other members' contracts are stated
with, and carry no contract of their own:

- `LocationService.EndPoint` (LocationService.cs:53-69) is the fold of
  `GetNextPosition` over the steps; `EndPointConcat`, `EndPointHeading`,
  `EndPointExample` and `CalculateRouteEndPoint` state what it does;
- `Text.Join` and `Text.Concat` (RoutesService.cs:54 and 89) are
  `string.Join` with a separator and with `string.Empty`; `Text.JoinSplit`,
  `Text.SplitJoin` and `RoutesService.ConcatAppend` state their laws;
- `RoutesService.StartingPointFields` (RoutesService.cs:107-110) trims the
  starting line and splits it at commas; `RoutesService.FormattedFields`
  states what it gives on a formatted line;
- `Text.IsWhiteSpace` (`char.IsWhiteSpace`, LocationService.cs:32 through
  `Trim`), `Text.IsNullOrWhiteSpace` (LocationService.cs:29,
  RoutesService.cs:105) and `Text.IsLetter` (`char.IsLetter`,
  LocationService.cs:275 and RoutesService.cs:176) are the .NET character
  classes, written out as ranges of code points.

## Model

All source paths are under `src/Traveler/src/Traveler.Services/`.

| member | source | states |
|---|---|---|
| LocationService.TurnRight | src/Traveler/src/Traveler.Services/LocationService.cs:105-145 | a right turn keeps X and Y and always changes the direction |
| LocationService.TurnLeft | src/Traveler/src/Traveler.Services/LocationService.cs:147-187 | a left turn keeps X and Y and always changes the direction |
| LocationService.MoveForward | src/Traveler/src/Traveler.Services/LocationService.cs:231-271 | forward keeps the direction and adds one unit of the heading (N: y-1, S: y+1, W: x-1, E: x+1) to the position, with 32-bit wrap-around |
| LocationService.MoveBackward | src/Traveler/src/Traveler.Services/LocationService.cs:189-229 | backward keeps the direction and subtracts one unit of the heading, with 32-bit wrap-around |
| LocationService.HeadingInjective | src/Traveler/src/Traveler.Services/LocationService.cs:189-271 | the four directions move along four different unit vectors |
| LocationService.TurnsRotateHeading | src/Traveler/src/Traveler.Services/LocationService.cs:105-187 | a right turn rotates the heading a quarter turn clockwise (N to E to S to W to N), and a left turn rotates it counter-clockwise |
| LocationService.TurnsAreInverse | src/Traveler/src/Traveler.Services/LocationService.cs:105-187 | left undoes right and right undoes left, for every position |
| LocationService.FourTurnsAreIdentity | src/Traveler/src/Traveler.Services/LocationService.cs:105-187 | four turns the same way give back the position |
| LocationService.MovesAreInverse | src/Traveler/src/Traveler.Services/LocationService.cs:189-271 | backward undoes forward and forward undoes backward, also across the 32-bit wrap-around |
| LocationService.GetNextPosition | src/Traveler/src/Traveler.Services/LocationService.cs:71-103 | turns keep the coordinates; moves keep the direction |
| LocationService.GetNextPositionTable | src/Traveler/src/Traveler.Services/LocationService.cs:71-103 | the whole transition table: `F` moves one unit along the heading and `B` one unit against it, with wrap-around and the direction kept; `R` rotates the heading a quarter turn clockwise and `L` counter-clockwise, with X and Y kept |
| LocationService.EndPointConcat | src/Traveler/src/Traveler.Services/LocationService.cs:53-69 | following `a + b` ends where following `b` from the end of `a` ends |
| LocationService.EndPointHeading | src/Traveler/src/Traveler.Services/LocationService.cs:53-69 | the final direction is the start turned by the net number of right turns (mod 4); a route of turns only leaves X and Y unchanged |
| LocationService.EndPointExample | src/Traveler/src/Traveler.Services/LocationService.cs:53-69 | from (0,0,N), `FFRFF` ends at (2,-2,E) |
| LocationService.CalculateRouteEndPoint | src/Traveler/src/Traveler.Services/LocationService.cs:53-69 | the loop keeps the last route coordinate equal to the fold of the steps so far; the result is the fold `EndPoint` of all steps from the starting point |
| LocationService.ValidateUnsupportedCharacters | src/Traveler/src/Traveler.Services/LocationService.cs:273-279 | passes exactly when every symbol is a letter; otherwise a route parse error |
| LocationService.ParseStep | src/Traveler/src/Traveler.Services/LocationService.cs:40-47 | a character parses exactly when it is F, B, L or R in either case; the step's name is the upper-cased character; otherwise the error names that character |
| LocationService.ParsedRoute | src/Traveler/src/Traveler.Services/LocationService.cs:27-51 | there are no steps exactly for blank text; it succeeds exactly when every character of the trimmed text is a step code; a non-letter fails before any per-step check; the first non-step letter is reported; on success there is one step per character, in order |
| LocationService.ParseSteps | src/Traveler/src/Traveler.Services/LocationService.cs:38-48 | it succeeds exactly when every character is a step code, giving one step per character, named by the upper-cased character; otherwise it reports the first character that is not a step code |
| LocationService.ParseUnparsedRouteSteps | src/Traveler/src/Traveler.Services/LocationService.cs:36-48 | the loop keeps the step list equal to the parse of the characters so far, stops at the first bad character, and returns exactly `ParseSteps` |
| LocationService.ParseRoute | src/Traveler/src/Traveler.Services/LocationService.cs:27-51 | the blank check, trimming, the letter check and then the loop return exactly `ParsedRoute` |
| LocationService.RoutesEndPosition | src/Traveler/src/Traveler.Services/LocationService.cs:15-25 | blank steps give back the starting position; it succeeds exactly when every trimmed character is a step code; every failure is a route parse error: a non-letter in the trimmed text gives `NonLetterSteps` before any step is parsed, and otherwise the first letter that is not a step code is reported as `UnparsedStep` |
| LocationService.RoutesEndPositionIsFold | src/Traveler/src/Traveler.Services/LocationService.cs:15-25 | a successful non-blank route ends where the fold `EndPoint` of its steps ends, the steps being one per trimmed character, named by that character in upper case |
| LocationService.CalculateRoutesEndPosition | src/Traveler/src/Traveler.Services/LocationService.cs:15-25 | the method returns exactly `RoutesEndPosition` |
| RoutesService.GetRobotCommandsWithoutComments | src/Traveler/src/Traveler.Services/RoutesService.cs:48-57 | splitting the result on "\r\n" gives exactly the lines that are neither empty nor start with `//`, in order (white-space-only lines are kept); the result is empty exactly when no such line exists; text with only such lines comes back unchanged |
| RoutesService.StripCommentsIdempotent | src/Traveler/src/Traveler.Services/RoutesService.cs:48-57 | stripping comments twice gives the same text as stripping once |
| RoutesService.GetStartingPositionsAndRouteSteps | src/Traveler/src/Traveler.Services/RoutesService.cs:59-65 | the blocks are exactly the non-empty pieces of the split at `POS=`, in their order (`SelectsInOrder`); they are non-empty and free of `POS=`; together they hold exactly the text minus the markers; text without a marker is one block, or none if empty |
| RoutesService.ConcatWithoutEmpties | src/Traveler/src/Traveler.Services/RoutesService.cs:59-65 | dropping empty pieces does not change what they spell |
| RoutesService.CleanTextBlocks | src/Traveler/src/Traveler.Services/RoutesService.cs:48-65 | on text without empty or comment lines, the blocks are the non-empty pieces between the markers of the raw text |
| RoutesService.FirstNonEmpty | src/Traveler/src/Traveler.Services/RoutesService.cs:69-71 | it finds nothing exactly when every line is empty; otherwise it returns the first non-empty line, which is the head of the non-empty lines |
| RoutesService.FirstNonEmptyAt | src/Traveler/src/Traveler.Services/RoutesService.cs:69-71 | a non-empty line with only empty lines before it is the one `First` returns |
| RoutesService.GetStartingPosition | src/Traveler/src/Traveler.Services/RoutesService.cs:67-76 | fails with `NoStartingLine` exactly when the block has no non-empty line; otherwise it is the starting point parsed from the first non-empty line; a successful position is in range; it never reports a route error |
| RoutesService.GetRouteSteps | src/Traveler/src/Traveler.Services/RoutesService.cs:78-92 | the first non-empty line followed by the result spells all the non-empty lines; with at most one such line the steps are empty |
| RoutesService.BlockRoundTrip | src/Traveler/src/Traveler.Services/RoutesService.cs:67-92 | a block written as a starting line and step lines gives that starting line and those steps glued together |
| RoutesService.ValidateStartingPointParameters | src/Traveler/src/Traveler.Services/RoutesService.cs:165-172 | passes exactly when X >= 0 and Y >= 0; a negative X is reported before a negative Y |
| RoutesService.ValidateUnsupportedCharacters | src/Traveler/src/Traveler.Services/RoutesService.cs:174-180 | passes exactly when every symbol is a letter; otherwise a starting-point parse error |
| RoutesService.ParseStartingPointCoordinate | src/Traveler/src/Traveler.Services/RoutesService.cs:130-149 | succeeds exactly when `int.TryParse` does, with its value; otherwise the error names the parameter |
| RoutesService.ParseStartingPointDirection | src/Traveler/src/Traveler.Services/RoutesService.cs:130-149 | it yields `d` exactly when the field case-insensitively names `d`; a non-letter gives unsupported characters; a word that names no direction is not parsed |
| RoutesService.NamesAreLetters | src/Traveler/src/Traveler.Services/RoutesService.cs:135-139 | only letter text can name a direction, so the letter check never rejects a valid name |
| RoutesService.TryParseStartingPointParameters | src/Traveler/src/Traveler.Services/RoutesService.cs:103-128 | blank text exactly gives "not specified"; anything other than three comma-separated fields gives "not specified properly"; it succeeds exactly when X, Y and the direction all parse, with those values; the fields are tried in order, so a bad X is reported as X, a bad Y after a good X as Y, and a bad direction after good coordinates with the direction field's own error; every failure is a starting-point parse error |
| RoutesService.CreateRouteStartingPointFromParameters | src/Traveler/src/Traveler.Services/RoutesService.cs:151-163 | succeeds exactly when X >= 0 and Y >= 0, with exactly those values; failures are range errors |
| RoutesService.CreateRouteStartingPoint | src/Traveler/src/Traveler.Services/RoutesService.cs:94-101 | any parse error wins over a range error; once the line parses, a negative X gives the X range error, then a negative Y the Y range error, and otherwise the result is the position with the parsed values |
| RoutesService.WordIsDirectionField | src/Traveler/src/Traveler.Services/RoutesService.cs:108-110 | a non-empty letter word is a field that trimming and comma splitting leave whole |
| RoutesService.FormattedFields | src/Traveler/src/Traveler.Services/RoutesService.cs:106-110 | a line `X,Y,field`, with a non-empty comma-free field that does not end in white space, is not blank and splits back into its three fields |
| RoutesService.TryParseFormatted | src/Traveler/src/Traveler.Services/RoutesService.cs:103-149 | such a line parses to its X and Y; only the direction field can fail, and then with that field's error |
| RoutesService.StartingPointRoundTrip | src/Traveler/src/Traveler.Services/RoutesService.cs:103-149 | every `X,Y,Direction` written in decimal parses back to the same values |
| RoutesService.StartingPointRangeCheck | src/Traveler/src/Traveler.Services/RoutesService.cs:94-101 | such a point becomes exactly that position, unless a negative X (reported first) or a negative Y puts it out of range |
| RoutesService.UnknownDirectionIsParseError | src/Traveler/src/Traveler.Services/RoutesService.cs:94-149 | a letter word naming no direction is a parse error even with negative coordinates (so `-1,0,Q` is a parse error) |
| RoutesService.NonLetterDirectionIsUnsupported | src/Traveler/src/Traveler.Services/RoutesService.cs:135-136 | a direction field with a non-letter is reported as unsupported characters, whatever X and Y are |
| RoutesService.RouteFromBlock | src/Traveler/src/Traveler.Services/RoutesService.cs:32-42 | one block's route succeeds exactly when its starting point does, and is then that starting position with the block's glued step lines; otherwise it is the starting point's error |
| RoutesService.RoutesFromCommands | src/Traveler/src/Traveler.Services/RoutesService.cs:22-46 | extracting routes never reports a step-text (route parse) error: step text is not looked at here |
| RoutesService.RoutesFromCommandsBlocks | src/Traveler/src/Traveler.Services/RoutesService.cs:22-46 | one route per block, in block order, with each block's starting position and steps; it succeeds exactly when every block's starting point does; on failure it reports the first failing block's error |
| RoutesService.GetRoutesFromCommands | src/Traveler/src/Traveler.Services/RoutesService.cs:22-46 | stripping comments, splitting blocks and running the loop returns exactly `RoutesFromCommands` |
| Seqs.MapEach | src/Traveler/src/Traveler.Services/RoutesService.cs:30-43 | the `foreach` loop keeps the values so far equal to `MapAll` over the elements so far, stops at the first failure, and returns exactly `MapAll` |
| RoutesService.SingleRobotHasNoComments | src/Traveler/src/Traveler.Services/RoutesService.cs:48-57 | one robot written as `POS=X,Y,D`, a line break `\r\n` and a line of letter steps survives comment stripping unchanged |
| RoutesService.SingleRobotBlocks | src/Traveler/src/Traveler.Services/RoutesService.cs:59-65 | such commands form exactly one block |
| RoutesService.SingleRobotBlockRoute | src/Traveler/src/Traveler.Services/RoutesService.cs:67-92 | that block, with X, Y >= 0, is the route from the formatted starting point along the steps |
| RoutesService.SingleRobotRoutes | src/Traveler/src/Traveler.Services/RoutesService.cs:22-46 | such commands with X, Y >= 0 give exactly one route, with that starting point and those steps |
| RobotService.ConvertDirectionToChar | src/Traveler/src/Traveler.Services/RobotService.cs:50-55 | the character is the whole one-letter name of the direction, and it reads back as the same direction |
| RobotService.DirectionCharsDistinct | src/Traveler/src/Traveler.Services/RobotService.cs:50-55 | different directions are reported by different characters |
| RobotService.GetCoordinatesFromPositions | src/Traveler/src/Traveler.Services/RobotService.cs:42-48 | one triple per position, in order, with the position's X and Y and the upper-case one-letter name of its direction |
| RobotService.CoordinatesConcat | src/Traveler/src/Traveler.Services/RobotService.cs:42-48 | projecting positions commutes with concatenation |
| RobotService.GetEndCoordinates | src/Traveler/src/Traveler.Services/RobotService.cs:21-40 | a route-extraction failure propagates before any end position is computed; otherwise it succeeds exactly when every route's end position does; it gives one triple per route, in order, with that end position's X, Y and the upper-case one-letter name of its direction; otherwise it reports the first failing route's error, which is a route parse error |
| RobotService.SingleRobotEndCoordinates | src/Traveler/src/Traveler.Services/RobotService.cs:21-55 | for a single robot written as `POS=X,Y,D`, `\r\n` and a line of letter steps, with X, Y >= 0, the output is the location service's end position for that starting point and steps as one triple, or that service's error |
| Text.Split | src/Traveler/src/Traveler.Services/RoutesService.cs:50-52 | ordinal `string.Split(string)` returns at least one piece, and no piece contains the separator |
| Text.JoinSplit | src/Traveler/src/Traveler.Services/RoutesService.cs:50-54 | joining the pieces of a split with the same separator gives back the text |
| Text.SplitJoin | src/Traveler/src/Traveler.Services/RoutesService.cs:50-54 | splitting a join of separator-free pieces gives back the pieces, when the separator is border-free |
| Text.Trim | src/Traveler/src/Traveler.Services/LocationService.cs:32 | the result is a slice of the input with only white space cut from the ends; it has no white space at its ends; it is empty exactly for blank text |
| Text.EqualsIgnoreCaseSingle | src/Traveler/src/Traveler.Services/LocationService.cs:42 | text equals a one-letter name ignoring case exactly when it is that letter in either case |
| Integers.ParseInt32 | src/Traveler/src/Traveler.Services/RoutesService.cs:140 | a text `int.TryParse` accepts holds only white space, decimal digits and signs |
| Integers.ParseInt32Accepts | src/Traveler/src/Traveler.Services/RoutesService.cs:140 | white space, an optional `+` or `-`, at least one digit and white space parse to the value they denote when it fits in 32 bits, and fail otherwise |
| Integers.ParseInt32Shape | src/Traveler/src/Traveler.Services/RoutesService.cs:140 | conversely, every text that parses has exactly that shape, and the result is the value it denotes |
| Integers.ParseFormat | src/Traveler/src/Traveler.Services/RoutesService.cs:140 | every 32-bit integer written in decimal parses back to itself |
| Integers.Wrap32 | src/Traveler/src/Traveler.Services/LocationService.cs:189-271 | unchecked `int` arithmetic leaves a result in the 32-bit range as it is |
| Integers.WrapDifference | src/Traveler/src/Traveler.Services/LocationService.cs:189-271 | wrapping changes a value by a multiple of 2^32 |
| Integers.WrapCongruent | src/Traveler/src/Traveler.Services/LocationService.cs:189-271 | values congruent modulo 2^32 wrap to the same `int` |
| Integers.WrapAddSub | src/Traveler/src/Traveler.Services/LocationService.cs:189-271 | adding and then subtracting the same amount with 32-bit wrap-around gives back the value |
| Dtos.DirectionFromName | src/Traveler/src/Traveler.Services/RoutesService.cs:139 | `Enum.TryParse` with `ignoreCase` yields `d` exactly when the text names `d` ignoring case |
| Dtos.StepFromName | src/Traveler/src/Traveler.Services/LocationService.cs:42 | `Enum.TryParse` with `ignoreCase` yields step `t` exactly when the text names `t` ignoring case |
| Dtos.DirectionNameRoundTrip | src/Traveler/src/Traveler.Services/RobotService.cs:52-54 | a direction's name, in upper or lower case, parses back to that direction |
| Seqs.MapAll | src/Traveler/src/Traveler.Services/RoutesService.cs:31-43 | it succeeds exactly when every element does, pointwise and in order; otherwise it reports the first failing element's error |
| Seqs.Filter | src/Traveler/src/Traveler.Services/RoutesService.cs:52 | `Where` keeps elements of the input, only ones that satisfy the predicate, and every one that does; all of them when all do |
| Seqs.FilterSelects | src/Traveler/src/Traveler.Services/RoutesService.cs:63 | `Where` picks out exactly the satisfying elements, at strictly increasing positions, in their order |
| Seqs.SelectsInOrderIsFilter | src/Traveler/src/Traveler.Services/RoutesService.cs:63 | conversely, a sequence picked out that way is the result of `Where`, so `SelectsInOrder` fixes the result |
| RoutesService.ConcatAppend | src/Traveler/src/Traveler.Services/RoutesService.cs:89 | `string.Join(string.Empty, …)` of a concatenation is the join of the parts, concatenated |
| Seqs.FilterConcat | src/Traveler/src/Traveler.Services/RoutesService.cs:63 | `Where` keeps the order: filtering a concatenation concatenates the filtered parts |

## Left out

- The `async`/`Task` machinery and `GetAwaiter().GetResult()`: every method here runs synchronously, so they are modelled as plain functions and methods.
- Exception message texts: only which exception is thrown, and for which parameter or character, is modelled.
- `null` inputs: the model takes every string as present.
- The interfaces and the constructor of `RobotService`: they only wire the services together; the model calls the modules directly.
- `GetEndPositionAsync` (RobotService.cs:35-40): it only forwards to `CalculateRoutesEndPositionAsync`, so it is folded into `GetEndCoordinates`.
- Program.cs, TravelParser.cs and the `Threads` demo are not part of this model. They do file and console I/O, service wiring and an unrelated concurrency demo.
- Integers.ParseInt32: models `int.TryParse` in the invariant culture only. Culture-specific signs and the trailing `\0` characters .NET tolerates are not modelled.
- Text.IsLetter: `char.IsLetter` is exact up to U+00FF; every character above U+00FF counts as a non-letter.
- `Enum.TryParse` also accepts numbers, comma lists and padded names. These are not modelled, because the letter-only check runs first and rules them out.
- StartsWith(`//`) is modelled as an ordinal prefix test. The source's culture-sensitive `StartsWith(string)` agrees with it for the ASCII marker, except for ignorable characters.
- LocationService.TurnRight and LocationService.TurnLeft: the contracts state only that X and Y are kept and the direction changes. The exact rotation is stated separately by `TurnsRotateHeading`.
- LocationService.GetNextPosition: its own contract states only what each kind of step keeps; the full table is stated separately by `GetNextPositionTable`, and the fold's end position by `RoutesEndPositionIsFold`, to keep the proofs that unfold these functions small.
- RoutesService.SingleRobotBlocks and the other single-robot lemmas cover the layout `POS=X,Y,D`, `\r\n`, steps. A `POS=` marker on a line of its own, as in `POS=\r\nX,Y,D\r\nsteps`, is covered by the general block lemmas (`RoutesFromCommandsBlocks`, `GetStartingPosition`, `GetRouteSteps`) but not by a single-robot round trip.
