# Tumladan: a verified model of its Carcassonne engine and match protocol

Tumladan is a game server for Carcassonne. This project models the three parts of it whose correctness is hard to see
by reading, and proves what they promise.

**The rules engine** (`internal/game/carcassonne/service`) is a state machine over an unbounded grid: place a tile,
place or skip a meeple, score, draw. It finds roads and cities by breadth-first search, fields by union-find, scores
only what the last tile touches, compacts the list of meeples in place, and rotates the deck when a tile does not fit.

**The reliable-action protocol** (`internal/match/service`, `internal/match/repository/postgres`,
`internal/room/repository/postgres`) applies each request of a player at most once although callers retry, locks get
lost, and commits may look failed: receipts by room, actor and action id, and compare-and-swap on the version.

**The protocols around it**: the life cycle of rooms and matches with a transactional outbox, lease-based publishing into
an idempotent projection of statistics, the table of turn timers, and the index of the connection registry.

## How the model is built

Operations that change state in the original are methods on classes and arrays with the same loops and branches: `Game`
(state of a match, with a reused buffer of meeples), `DisjointSet`, `Cluster` (the database), `Outbox`, `Tables`,
`Timers`, `Registry`. Each is proved against a function or predicate on plain values, and the promises are proved about
those: connected classes of zones (`Graphs`, `Topology`), the rules (`Rules`, `GameStates`, `FinalScores`), runs
(`Invariants`, `Conservation`, `Growth`, `Runs`), and the history of a database (`Database`, `Transactions`).

| part | modules |
|---|---|
| tiles, catalog, board geometry | `Tiles`, `Catalogs`, `Graphs`, `Topology`, `Geometry` |
| roads and cities | `FeatureGraph`, `FeatureScores` |
| fields | `Powers`, `DisjointSets`, `FieldGraphs`, `FieldCities` |
| the order of final events | `Sorting`, `BoardOrders`, `FieldOrders` |
| placements | `Placements`, `MeeplePlacements`, `Acceptance` |
| meeples and hands | `Pieces`, `Hands` |
| scoring | `GameStates`, `TurnScoring`, `TurnScores`, `Neighbourhoods`, `Sums`, `FinalScores`, `FinalFeatures`, `FinalPayments` |
| the game and its runs | `Rules`, `Growth`, `Conservation`, `Invariants`, `Runs`, `Games`, `Bots`, `BotIds` |
| reliable actions and life cycle | `Database`, `Transactions`, `Protocol`, `Matches`, `Lifecycles`, `Scenarios` |
| downstream and connections | `Publishing`, `Projection`, `Deliveries`, `Chains`, `ChainScenario`, `TurnTimers`, `TimedMatches`, `Registries` |

`dafny verify dfyconfig.toml` checks everything.

## Assumptions

- The tile catalog is any catalog that the validator accepts; the concrete tiles are not used.
- Players of a match are at least one, with distinct, non-empty ids; tile instance ids are distinct.
- The request hash is injective, so it is modelled by what it covers. Ids of new rooms and matches are fresh.
- Every database transaction is one atomic step that may fail, or succeed although the caller is told it failed; only
  where a result says that no connection breaks (`reliable`) does every answer arrive. The room lock is not relied on at
  all: any other callers may act between any two steps of one caller.
- Two deliveries of one event id carry the same match.
- For the deadlines of timers: a response shows a version of a running match that was stored, and the creation time of a
  match reads the same in all responses.
- For the chain from a match to the statistics (`Chains`): the event written at the end of a match has a new id, carries
  the id of the match, and nobody has two seats in it.
- A meeple is big only if its type is exactly `big` (`internal/game/carcassonne/service/apply_action.go:445-465`).

## What the proofs brought to light

- An unknown meeple type is first normalised to nothing and then treated as regular: such a request is accepted exactly
  where a regular meeple is (`Runs.UnknownTypeIsRegular`).
- Which segments of a tile touch is mutual except for the middle: it touches the middles of the four sides, but none of
  them touches it (`Geometry.AdjacentIsNear`, `Geometry.TouchingIsMutual`). A field in the middle of a tile therefore
  finds the cities on the sides, and a field on a side never finds a city in the middle.
- The search of a feature can never meet two zone types, and the checks that contributions add up to the score can never
  fail; those error branches are dead (`Topology.ClassHasOneKind`, `FeatureScores.CompletedContributions`,
  `FeatureScores.FinalContributions`).
- A match whose start tile no deck tile fits is finished from the start, yet its room is set to playing. The rule "a room
  is playing exactly if it has exactly one active match" survives the start of a match if and only if some deck tile fits
  (`Matches.StartedRoomFitsIff`); `Scenarios.StartedAndDead` gives the input. No match can ever be ended or started in
  such a room again, its settings cannot change, and it cannot be deleted (`Lifecycles.DeadForever`). In all other rooms
  the rule holds (`Transactions.StatusIsRight`).
- The commit that ends a match finds it by room, not by id. `Scenarios.FinalPathMixesMatches` gives a run in which the
  final state of one match is stored in another; `Protocol.FinalPathIsRightIff` gives the exact condition under which the
  right match is hit. The claims about histories of states carry this condition.
- Deleting a room also deletes its receipts. That a request is applied at most once holds over the whole history; that a
  retry gets its stored answer holds as long as the room exists.
- The cap of five minutes on the retry delay is never reached: the longest delay is 256 seconds
  (`Publishing.RetryDelayGrows`).
- A turn timer moves forward among matches of known creation time. An entry whose creation time could not be read gives
  way to any other match of its room (`TurnTimers.ScheduleMovesForwardIff`). From the empty table on, the deadline of a
  running turn cannot move if and only if no two matches timed in the room have unknown creation times, or their
  responses agree when each turn ends (`TurnTimers.AlwaysFixedIff`).
- Statistics and the set of achievements do not depend on the order in which events arrive. The match recorded with an
  achievement does: it is always the first delivered one that unlocks it (`Projection.Consume`), so two consumers agree
  exactly if their first unlocking deliveries do (`Projection.RecordsAgreeIff`; `Projection.OrderDecidesProof` is a pair
  of consumers that differ).
- Adding a connection under an id that is still in a room, and only that, leaves a stale entry in the index
  (`Registries.Registry.Add`).
- A bot id is read back as written if and only if the room id is neither empty nor contains a colon, and the number is
  positive (`BotIds.RoundTripIff`).

## Model

| member | source | states |
|---|---|---|
| Tiles.NormalizeIsRemainder | internal/game/carcassonne/service/apply_action.go:487-493 | For every integer rotation the truncating remainder followed by the correction is the mathematical remainder mod 360, and normalising twice changes nothing. |
| Tiles.RotationInjective | internal/game/carcassonne/service/topology.go:28-72 | Rotation never sends two segments to the same one. |
| Tiles.RotationOnto | internal/game/carcassonne/service/topology.go:28-72 | Every segment of a rotated tile comes from one segment of the definition; centres come from centres, side middles from side middles. |
| Tiles.RotationsAgree | internal/game/carcassonne/service/apply_action.go:495-505 | Rotating the edges of a tile and rotating its segments agree: a rotated segment lies on a side whose rotated edge is the edge it had before. |
| Tiles.CrossingIsInvolution | internal/game/carcassonne/service/topology.go:91-173 | Exactly the boundary segments cross a border; crossing twice returns to the same cell and segment, and sides and side middles correspond. |
| Tiles.ZonesDisjoint | internal/game/carcassonne/service/tile_catalog.go:147-175 | In a validated definition two zones that share an id or a segment are the same zone. |
| Geometry.RotationTurns | internal/game/carcassonne/service/topology.go:28-72 | Seen as points of a tile, segments are rotated clockwise by the angle asked for, for every valid rotation. |
| Geometry.CrossingIsSamePoint | internal/game/carcassonne/service/topology.go:91-173 | A border is crossed exactly where two segments of different cells are the same point of the board. |
| Geometry.AdjacentIsNear | internal/game/carcassonne/service/field_graph.go:376-412 | Segments of the border touch exactly the next ones along it; the middle touches the middles of the sides, and nothing touches the middle. |
| Geometry.RankIsClockwise | internal/game/carcassonne/service/projection.go:137-168 | A meeple is drawn on the middle of the tile if it can be, else on the middle of a side, else elsewhere, and among these on the first segment clockwise from the top left corner. |
| Geometry.NeighborsMeet | internal/game/carcassonne/service/feature_graph.go:17-59 | Two zones of the board are neighbours if and only if they have one kind and share a point of the border between their tiles. |
| Geometry.OpenIsAlone | internal/game/carcassonne/service/feature_graph.go:35-50 | A segment of a zone is open if and only if it lies on the border and no zone of its kind meets it there. |
| Catalogs.UseSegments | internal/game/carcassonne/service/tile_catalog.go:160-175 | Accepts a zone's segments if and only if none repeats and none is taken, and then records each under the zone's type. |
| Catalogs.ValidateZones | internal/game/carcassonne/service/tile_catalog.go:147-186 | Accepts if and only if every zone is valid and no two zones share an id or a segment; on success the recorded types are exactly those of the owning zones. |
| Catalogs.ValidateEdgeSegments | internal/game/carcassonne/service/tile_catalog.go:242-299 | Accepts if and only if every boundary segment fits its edge: the middle of a road edge is road, every segment of any other edge has the edge's type. |
| Catalogs.ValidateDefinition | internal/game/carcassonne/service/tile_catalog.go:124-200 | Accepts a definition if and only if it meets all the conditions the geometry rests on. |
| Catalogs.ValidMeans | internal/game/carcassonne/service/tile_catalog.go:124-299 | A definition is acceptable if and only if its zones are proper (pennants on cities, inns on roads, fields that reach the border where there is a field edge), no two share a name or a segment, and they cover the border as its edges say. |
| Catalogs.ValidateTileDefinitions | internal/game/carcassonne/service/tile_catalog.go:109-207 | Accepts a list of definitions if and only if all are valid, their ids differ, and a start tile with count 0 is among them. |
| Catalogs.BuildCatalog | internal/game/carcassonne/service/tile_catalog.go:45-58 | Validated definitions give a catalog that finds each definition by its id and satisfies everything the other results assume of a catalog. |
| Catalogs.AppendDefinitions | internal/game/carcassonne/service/tile_catalog.go:72-90 | The deck holds each tile id exactly as often as the definitions count it, and the start tile never. |
| Topology.TileAtMeaning | internal/game/carcassonne/service/apply_action.go:538-545 | On a board without two tiles on one cell the scan returns a tile exactly if that tile lies on the cell. |
| Topology.TileByIdMeaning | internal/game/carcassonne/service/scoring.go:939-946 | With unique instance ids the scan returns a tile exactly if that tile has the id. |
| Topology.FindZoneMeaning | internal/game/carcassonne/service/topology.go:82-89 | In a valid definition the lookup returns a zone exactly if it belongs to the definition and has the id. |
| Topology.FindBySegmentMeaning | internal/game/carcassonne/service/topology.go:226-243 | In a valid definition the lookup by kind and rotated segment returns a zone exactly if that zone has the kind and owns the segment. |
| Topology.Resolves | internal/game/carcassonne/service/topology.go:176-207 | A zone reference resolves exactly to the placed zone it names, and resolves at all exactly if it names a zone of a placed tile. |
| Topology.AcrossSound | internal/game/carcassonne/service/topology.go:213-244 | What a border crossing finds is a zone of the same kind, on the cell behind the border, that owns the matching segment. |
| Topology.AcrossBack | internal/game/carcassonne/service/topology.go:213-244 | Crossing back from the zone that was found leads to the zone one came from. |
| Topology.NeighborsSymmetric | internal/game/carcassonne/service/feature_graph.go:17-59 | The neighbour relation of zones is symmetric and stays on the board. |
| Topology.ClassHasOneKind | internal/game/carcassonne/service/feature_graph.go:80-88 | A connected class never mixes zone types, so the search's type-mismatch error cannot occur. |
| Topology.OwnerOfSegment | internal/game/carcassonne/service/tile_catalog.go:242-299 | Every boundary segment of a placed, rotated tile is owned by a zone of the type its rotated edge asks for. |
| Topology.OpenMeansEmptyCell | internal/game/carcassonne/service/feature_graph.go:35-50 | On a legal board a segment of a city or field side, and the middle of a road side, is open exactly if the cell behind it is empty. |
| FeatureGraph.ConnectedNeighborZones | internal/game/carcassonne/service/feature_graph.go:17-59 | Lists exactly the neighbouring zones, each once, and counts exactly the open border segments. |
| FeatureGraph.BuildFeature | internal/game/carcassonne/service/feature_graph.go:61-116 | Fails exactly for a zone that is not on the board; otherwise terminates with exactly the connected class of the start, each zone once, its open edges, and the weight of every actor with a meeple on it and nobody else. |
| FeatureGraph.StartDoesNotMatter | internal/game/carcassonne/service/feature_graph.go:61-116 | Searching from any zone of a class gives the same type, zones, open-edge count and meeple weights. |
| FeatureGraph.NoOpenEdgesIsClosed | internal/game/carcassonne/service/scoring.go:67-69 | The counted open edges are zero exactly if no zone of the class has an open edge, and exactly if no border segment of any of its zones is open. |
| FeatureGraph.AddWeights | internal/game/carcassonne/service/feature_graph.go:96-106 | Adding one zone's meeples to the weights of other zones gives the weights of all of them together, big meeples counting twice. |
| DisjointSets.HopsLogarithmic | internal/game/carcassonne/service/field_graph.go:29-43 | From any node the parent chain reaches the root within h steps where 2^h is at most the size stored at the root. |
| DisjointSets.DisjointSet.Add | internal/game/carcassonne/service/field_graph.go:21-27 | Adding keeps the invariant (one root per class of the links, sizes exactly at the roots, 2^rank at most size) and adds an isolated node. |
| DisjointSets.DisjointSet.Find | internal/game/carcassonne/service/field_graph.go:29-43 | Returns the root of the node's class, or nothing for an unknown node; path compression changes no class, size or link. |
| DisjointSets.DisjointSet.Union | internal/game/carcassonne/service/field_graph.go:45-62 | Merges the classes of its two arguments: afterwards the classes are those of the links with one more edge. |
| DisjointSets.SameTree | internal/game/carcassonne/service/field_graph.go:21-62 | Two nodes have the same root if and only if they are connected by the unioned pairs. |
| FieldGraphs.PartitionCorrect | internal/game/carcassonne/service/field_graph.go:96-190 | Two field segments have the same root if and only if their zones lie in the same field; the indexed segments are exactly the field segments of the board. |
| FieldGraphs.RootsForZone | internal/game/carcassonne/service/field_graph.go:199-217 | A field zone has exactly one root, that of its field; any other zone has none. |
| FieldGraphs.WeighFarmers | internal/game/carcassonne/service/field_graph.go:163-190 | Weights are recorded for exactly the occupied fields, and count every farmer of the field once. |
| FieldGraphs.BuildFieldGraph | internal/game/carcassonne/service/field_graph.go:86-197 | Builds the whole field graph: valid union-find, correct partition, complete index, segments grouped by root, correct weights. |
| FieldCities.RefOrder | internal/game/carcassonne/service/field_graph.go:265-284 | The order on zone references is strict and total. |
| FieldCities.RefTransitive | internal/game/carcassonne/service/field_graph.go:265-284 | The order on zone references is transitive. |
| FieldCities.CanonicalRef | internal/game/carcassonne/service/field_graph.go:254-263 | The canonical reference is the least zone of the feature, whatever order its zones were found in. |
| FieldCities.CanonicalIdentifies | internal/game/carcassonne/service/field_graph.go:254-263 | Two features have the same canonical reference if and only if they are the same feature. |
| FieldCities.DictionaryOrder | internal/game/carcassonne/service/field_graph.go:265-284 | Names are compared as in a dictionary: a proper prefix comes first, otherwise the first character that differs decides. |
| FieldCities.CollectCompletedCities | internal/game/carcassonne/service/field_graph.go:219-252 | The collected references are those of exactly the closed cities on the board. |
| FieldCities.AdjacentCities | internal/game/carcassonne/service/field_graph.go:330-354 | Lists exactly the city zones of the tile whose rotated segments touch the field segment. |
| FinalFeatures.FieldCompletedCities | internal/game/carcassonne/service/field_graph.go:286-328 | The closed cities beside the field with their features, each city once however many segments or zones touch it, in the board order of their canonical references. |
| Neighbourhoods.BesideIsTouching | internal/game/carcassonne/service/field_graph.go:330-374 | A city supplies a field if and only if one of its zones touches a zone of the field on the same tile, touching meant as on paper. |
| Neighbourhoods.FieldIsWorth | internal/game/carcassonne/service/scoring.go:557-561 | A field is worth three points for each of these cities that is complete, however often they meet. |
| Pieces.WeightPositive | internal/game/carcassonne/service/scoring.go:917-922 | An actor's weight on some zones is positive exactly if the actor has a meeple there. |
| Pieces.Splits | internal/game/carcassonne/service/scoring.go:833-854 | Kept and returned meeples together are a permutation of the list; a meeple is returned exactly if it stands on one of the zones. |
| Pieces.CountSplits | internal/game/carcassonne/service/scoring.go:833-854 | For each player and kind, the meeples on the board before are those kept plus those returned. |
| Pieces.GiveBackCounts | internal/game/carcassonne/service/scoring.go:924-937 | Handing meeples back raises each owner's counter of each kind by exactly the number returned, and changes no score, seat or id. |
| Pieces.WeightIsCount | internal/game/carcassonne/service/scoring.go:917-922 | A player's weight on some zones is the number of regular meeples there plus twice the number of big ones. |
| Pieces.WinnerWeighsMost | internal/game/carcassonne/service/scoring.go:890-915 | A winner has a meeple there, nobody weighs more, and whoever weighs as much wins as well. |
| Hands.ApplyScore | internal/game/carcassonne/service/scoring.go:817-823 | In place, exactly the winners' scores rise by the points; nothing else changes. |
| Hands.ChangeMeeples | internal/game/carcassonne/service/apply_action.go:467-480 | In place, exactly one counter of the first player with the id changes. |
| Hands.ReturnMeeplesForFeature | internal/game/carcassonne/service/scoring.go:833-854 | The in-place compaction leaves the meeples off the feature in their order and hands all others back. |
| Hands.ReturnMeeple | internal/game/carcassonne/service/scoring.go:875-888 | The in-place compaction takes exactly this player's meeples off the zone and hands them back, whoever else stands there; the others keep their order. |
| Hands.OwnSplits | internal/game/carcassonne/service/scoring.go:875-888 | What is taken and what stays together are the meeples there were, each as often as before. |
| Hands.OwnIsTaken | internal/game/carcassonne/service/scoring.go:875-888 | If only one player stands on a zone, taking that player's meeples is taking all meeples of the zone. |
| Hands.ReturnAllMeeples | internal/game/carcassonne/service/scoring.go:825-831 | Every meeple on the board goes back to its owner. |
| FeatureScores.UniqueTileIds | internal/game/carcassonne/service/scoring.go:974-991 | Counts the distinct tiles of a feature. |
| FeatureScores.CountPennants | internal/game/carcassonne/service/scoring.go:1020-1044 | Counts the pennant zones of a feature. |
| FeatureScores.FeatureHasInn | internal/game/carcassonne/service/scoring.go:1215-1230 | True exactly if some zone of the feature is a road with an inn. |
| FeatureScores.FeatureHasCathedral | internal/game/carcassonne/service/scoring.go:1232-1258 | True exactly if some tile of the feature has a cathedral zone. |
| FeatureScores.InnOnBoard | internal/game/carcassonne/service/scoring.go:1215-1230 | A feature has an inn if and only if one of its placed zones is a road defined with one. |
| FeatureScores.CathedralOnBoard | internal/game/carcassonne/service/scoring.go:1232-1258 | A feature has a cathedral if and only if one of its placed zones shares its tile with a cathedral zone. |
| FeatureScores.CompletedScore | internal/game/carcassonne/service/scoring.go:1046-1052 | In every case: a completed road is worth one point a tile, two with an inn; a completed city two points for each tile and pennant, three with a cathedral. |
| FeatureScores.CompletedContributions | internal/game/carcassonne/service/scoring.go:1054-1074 | The contributions of a completed feature sum to its score, and each is what its own tile and pennants are worth. |
| FeatureScores.FinalScore | internal/game/carcassonne/service/scoring.go:498-519 | In every case: an unfinished road is worth one point a tile, or nothing with an inn; an unfinished city one point for each tile and pennant, or nothing with a cathedral. |
| FeatureScores.FinalContributions | internal/game/carcassonne/service/scoring.go:426-443 | The contributions of an unfinished feature sum to its score, also when that is zero. |
| FeatureScores.ScoreContributions | internal/game/carcassonne/service/scoring.go:1076-1117 | One contribution per tile of the feature, the rate for the tile and for each of its pennants; together they are the rate times tiles plus pennants. |
| FeatureScores.WinningActors | internal/game/carcassonne/service/scoring.go:890-915 | Exactly the actors with the largest positive weight. |
| FeatureScores.WinnersOfWeights | internal/game/carcassonne/service/scoring.go:71-74 | Applied to a feature's weights these are the majority holders, and there is none exactly if nobody stands on the feature. |
| Placements.PlacingKeepsLegal | internal/game/carcassonne/service/apply_action.go:310-351 | Adding an accepted tile keeps cells and ids unique, all touching edges equal, and the board connected. |
| Placements.AcceptedIffLegal | internal/game/carcassonne/service/apply_action.go:310-351 | A new tile is accepted if and only if the board with it is legal: nothing but a taken cell, a missing neighbour or an edge that differs refuses it. |
| Placements.HasAnyTilePlacement | internal/game/carcassonne/service/scoring.go:269-293 | True if and only if some cell of the unbounded grid and some valid rotation are accepted, although only cells beside tiles are tried. |
| Placements.ValidTilePlacements | internal/game/carcassonne/service/projection.go:254-302 | For every cell of the grid and every valid integer rotation: (x, y, r mod 360) is listed if and only if placing at (x, y, r) is accepted; sorted, one entry per cell, no empty entry. |
| Placements.DrawNextPlaceableTile | internal/game/carcassonne/service/scoring.go:246-267 | Takes the first tile that fits and leaves the tiles after it followed by the skipped ones; leaves the deck as it was if none fits. |
| Placements.DrawUnique | internal/game/carcassonne/service/scoring.go:246-267 | The draw is a function of deck and board. |
| Placements.DrawConserves | internal/game/carcassonne/service/scoring.go:246-267 | Deck before is deck after plus the drawn tile, which fits; nothing is drawn exactly if nothing fits. |
| MeeplePlacements.AvailableMeepleTypes | internal/game/carcassonne/service/projection.go:333-342 | Exactly the types of which the actor has a meeple left. |
| MeeplePlacements.Foremost | internal/game/carcassonne/service/projection.go:125-135 | The segment of least placement rank among the rotated segments. |
| MeeplePlacements.FieldIsFree | internal/game/carcassonne/service/apply_action.go:386-400 | True exactly for a field zone whose whole field carries no meeple. |
| MeeplePlacements.FeatureIsFree | internal/game/carcassonne/service/apply_action.go:402-407 | True exactly for a zone on the board whose whole feature carries no meeple. |
| MeeplePlacements.CanPlaceMeeple | internal/game/carcassonne/service/apply_action.go:353-412 | Accepts exactly if a tile was just placed, a meeple of the type is left, and the zone is free; what free means is fixed by Acceptance.PlaceMeepleDoneIff. |
| MeeplePlacements.ValidMeeplePlacements | internal/game/carcassonne/service/projection.go:304-331 | Lists exactly the acceptable zones of the last tile, with their types and segment. |
| Runs.ListedIsAccepted | internal/game/carcassonne/service/projection.go:304-331 | For every request to place a meeple, with any type, with or without a segment: the rules accept it if and only if it fits the room and names a listed placement with a listed type. |
| Runs.UnknownTypeIsRegular | internal/game/carcassonne/service/apply_action.go:445-465 | A meeple of a type that is neither regular nor big is accepted exactly where a regular one is. |
| Acceptance.OutOfTurnIff | internal/game/carcassonne/service/apply_action.go:16-46 | While the match runs, the error of acting out of turn comes exactly if another player is to move; a finished match refuses everything as invalid. |
| Acceptance.PlaceTileDoneIff | internal/game/carcassonne/service/apply_action.go:114-169 | A tile is put down if and only if it is the tile phase, the player's turn and this room, the rotation is a multiple of 90, and the board is legal with it; then it is the last tile, and only board, tile in hand and phase change. |
| Acceptance.PlaceMeepleDoneIff | internal/game/carcassonne/service/apply_action.go:221-290 | For a zone of the last tile that scores: a meeple is put down if and only if it is the player's turn and this room, the player holds one of the type, and no meeple stands anywhere on the road, city or field of the zone (or on the monastery). Then it is the only one there, and the turn is resolved. |
| Acceptance.AcceptedNames | internal/game/carcassonne/service/apply_action.go:231-252 | Every accepted meeple action names such a zone, with its own tile and segment if it gives any. |
| Acceptance.SkipDoneIff | internal/game/carcassonne/service/apply_action.go:292-308 | A turn is ended without a meeple if and only if a tile was placed and it is the player's turn and this room. |
| Acceptance.HandLosesOne | internal/game/carcassonne/service/apply_action.go:467-480 | Putting a meeple down takes exactly one meeple of its kind from the hand of its owner, and nothing else. |
| GameStates.LedgerComposes | internal/game/carcassonne/service/scoring.go:14-36 | If events account for each of two consecutive changes, together they account for both. |
| GameStates.SettleLedger | internal/game/carcassonne/service/scoring.go:81-101 | One settled feature: the event's awards are exactly the score changes, its parts add up, and its returned meeples are exactly those that left the board. |
| GameStates.MeeplesForFeature | internal/game/carcassonne/service/scoring.go:856-873 | The meeples listed in an event are exactly those on the feature, in list order. |
| GameStates.TakenSingle | internal/game/carcassonne/service/scoring.go:140-164 | With at most one meeple per tile, returning a meeple by its zone returns exactly that meeple. |
| TurnScoring.SettledStep | internal/game/carcassonne/service/scoring.go:51-102 | Scoring one feature settles all its zones and keeps settled what was, so visited zones may be skipped. |
| TurnScoring.ScoredAreSettled | internal/game/carcassonne/service/scoring.go:53-102 | After scoring, no feature through any of the given zones is both completed and occupied. |
| TurnScoring.LastZonesOnBoard | internal/game/carcassonne/service/scoring.go:993-1018 | The start zones are exactly the zones of the kind on the last tile. |
| TurnScoring.ScoreTurnKeeps | internal/game/carcassonne/service/scoring.go:14-36 | Turn scoring changes only players and meeples, and only takes meeples away. |
| TurnScores.TurnScoreIsSum | internal/game/carcassonne/service/scoring.go:14-36 | At the end of a turn every player gets one share of each completed road and city on the whole board the player holds a majority on, each counted once, and nine points for each monk whose monastery is complete. |
| TurnScores.CompletedPays | internal/game/carcassonne/service/scoring.go:42-105 | Every majority holder of a completed road gets at least one point a tile, two with an inn; of a completed city two points for each tile and pennant, three with a cathedral. |
| TurnScores.StaysIff | internal/game/carcassonne/service/scoring.go:42-168 | Exactly the meeples on completed roads, cities and monasteries leave the board, wherever they stand. |
| TurnScores.ResolvePays | internal/game/carcassonne/service/scoring.go:14-36 | The end of a turn changes scores by the turn's sum and, exactly if no tile of the deck fits, by the final sum of what is left on the board. |
| TurnScores.TurnEnds | internal/game/carcassonne/service/scoring.go:174-217 | If some tile of the deck fits, the player in the next seat gets the first one that does, those passed over go to the end of the deck, and the turn number rises by one; if none fits, the match is finished and nobody is to move. |
| Neighbourhoods.CountIsBlock | internal/game/carcassonne/service/scoring.go:952-972 | The neighbours counted around a cell are the tiles of its three by three block without the middle. |
| Neighbourhoods.CompleteIffBlockIsFull | internal/game/carcassonne/service/scoring.go:948-950 | A monk's monastery is complete if and only if every cell of the block around it holds a tile. |
| Neighbourhoods.MonkIsWorthItsBlock | internal/game/carcassonne/service/scoring.go:445-496 | A monk is whoever stands on a monastery, and is finally worth the number of tiles in the block, the monastery included. |
| FinalScores.ShareSumAdd | internal/game/carcassonne/service/scoring.go:314-357 | The sum of a player's shares does not depend on the order in which features are paid. |
| FinalScores.FinalScoreIsSum | internal/game/carcassonne/service/scoring.go:305-369 | A final score is the score so far plus one share for each occupied road, city and field the player holds a majority on, each counted once, plus the player's monks. |
| FinalFeatures.FinalOccupiedRoadsAndCities | internal/game/carcassonne/service/scoring.go:371-424 | Every meeple on a road or city stands on exactly one listed feature; no zone belongs to two; roads come before cities, and each kind is in the order of first zones on the board. |
| FinalFeatures.FeatureOrderIsFixed | internal/game/carcassonne/service/scoring.go:371-424 | There is only one such list of features: it depends on the board and the meeples, not on the order in which meeples are visited. |
| FinalFeatures.ListIsOccupied | internal/game/carcassonne/service/scoring.go:371-424 | The listed features of a kind are exactly the occupied ones. |
| FinalFeatures.RecordedIsOccupied | internal/game/carcassonne/service/scoring.go:539-548 | The recorded roots stand for exactly the occupied fields. |
| FinalFeatures.MeeplesForField | internal/game/carcassonne/service/scoring.go:737-751 | Exactly the meeples that stand in the field, in board order. |
| FinalFeatures.FieldScore | internal/game/carcassonne/service/scoring.go:557-561 | Three points for each closed city beside the field. |
| FinalPayments.ScoreFinalFeature | internal/game/carcassonne/service/scoring.go:323-355 | Pays the majority holders of one road or city its final worth; an occupied one gets one event, with winners, points, and parts and meeples in board order. |
| FinalPayments.ScoreFinalKind | internal/game/carcassonne/service/scoring.go:314-357 | Pays every occupied feature of the kind exactly once, with one event for each in the order of the list. |
| FinalPayments.KindEventsAreFixed | internal/game/carcassonne/service/scoring.go:314-357 | Awards, points, returned meeples and order of these events are determined by the board and the meeples. |
| FinalPayments.ScoreFinalMonasteries | internal/game/carcassonne/service/scoring.go:445-496 | Pays every monk one point plus one for each neighbour of the monastery, with one event for each in board order; the order does not change what is paid. |
| BoardOrders.CompareLaws | internal/game/carcassonne/service/scoring.go:635-687 | On every board the comparison of field segments (row, column, names) is a strict total order. |
| BoardOrders.CompareRefsLaws | internal/game/carcassonne/service/scoring.go:622-633 | So is the comparison of zones. |
| BoardOrders.RowByRow | internal/game/carcassonne/service/scoring.go:657-687 | Tiles of the board come row by row from the top, and within a row from the left. |
| BoardOrders.ZoneByZone | internal/game/carcassonne/service/scoring.go:622-633 | Zones come in the order of their tiles, and on one tile in the order of their names. |
| BoardOrders.ArrangedMeeplesLaws | internal/game/carcassonne/service/scoring.go:704-735 | The meeples of an event are the same ones in ascending order, strictly ascending if no tile carries two. |
| BoardOrders.ArrangedMeeplesOnce | internal/game/carcassonne/service/scoring.go:704-735 | With at most one meeple on a tile the sorted list does not depend on the order it was collected in. |
| BoardOrders.ArrangedContributionsLaws | internal/game/carcassonne/service/scoring.go:689-702 | Sorting the parts of an event changes neither the parts nor their sum. |
| BoardOrders.FirstRefOnce | internal/game/carcassonne/service/scoring.go:594-604 | The first zone of a feature does not depend on the order in which its zones were found. |
| FieldOrders.CanonicalSegment | internal/game/carcassonne/service/scoring.go:606-620 | The first of the segments listed under a root. |
| FieldOrders.CanonicalIsFirst | internal/game/carcassonne/service/scoring.go:606-620 | It is the first segment of the whole field, whichever segment is the root. |
| FieldOrders.SortFields | internal/game/carcassonne/service/scoring.go:539-548 | Lists the occupied fields, each once, in ascending order of their first segments. |
| FieldOrders.FieldOrderIsFixed | internal/game/carcassonne/service/scoring.go:539-548 | There is only one such order: it depends on the board and the meeples, not on the chosen roots or on the order in which a map is listed. |
| FinalPayments.ScoreFinalFields | internal/game/carcassonne/service/scoring.go:530-592 | Pays every occupied field exactly once, with one event for each field in that order. |
| FinalPayments.FieldEventsAreFixed | internal/game/carcassonne/service/scoring.go:530-592 | The list of final field events is determined by the board and the meeples. |
| FinalPayments.PayEverything | internal/game/carcassonne/service/scoring.go:305-366 | The four passes pay exactly the final shares; their events list each meeple on the board exactly once, and come in the order roads, cities, monasteries, fields, each kind in board order. |
| FinalPayments.FinalEventsAreFixed | internal/game/carcassonne/service/scoring.go:305-366 | The board and the meeples determine awards, points, returned meeples and order of all final events: no order in which features are found, no choice of roots and no order of a map can change them. |
| Games.Game.ScoreCompletedFeatures | internal/game/carcassonne/service/scoring.go:42-105 | Scores each completed, occupied road (city) through the last tile once: majority holders get its worth, its meeples go home; with events recorded they are events of this turn about this kind that account for everything, silently there are none, and the state changes are the same. |
| Games.Game.ScoreThrough | internal/game/carcassonne/service/scoring.go:1275-1326 | Scores the feature through one zone if it is completed and occupied, with an event that accounts for it, and returns the whole feature as visited. |
| Games.Game.ScoreCompletedMonasteries | internal/game/carcassonne/service/scoring.go:111-168 | Nine points and the meeple back for every monk whose monastery is complete, with one event of nine points each; what complete means is fixed by Neighbourhoods.CompleteIffBlockIsFull. |
| Games.Game.ScoreFinalFeatures | internal/game/carcassonne/service/scoring.go:305-369 | All final payments, then no meeple on the board; the events account for every score change and every meeple, and are the final events of this board in their order. |
| Games.Game.CompleteTurnAndDrawNextTile | internal/game/carcassonne/service/scoring.go:174-217 | Next player, next turn and the first placeable tile; or final scoring, with the final events of this board in their order, and a finished match if nothing fits. |
| Games.Game.ResolveTurn | internal/game/carcassonne/service/scoring.go:14-36 | Scores roads, cities and monasteries and ends the turn; never fails. Its events account for the whole change and come in order: those of completed roads, cities and monasteries, then those of the final scoring if the match is over. |
| Games.Game.AppendMeeple | internal/game/carcassonne/service/apply_action.go:265-265 | Appends to the list of meeples, reusing the buffer or moving to a larger one. |
| Games.Game.PlaceTile | internal/game/carcassonne/service/apply_action.go:114-169 | Accepts exactly the placements the rules allow (those of Acceptance.PlaceTileDoneIff) and then changes board, last tile, current tile and phase; a refusal changes nothing. |
| Games.Game.CheckMeeple | internal/game/carcassonne/service/apply_action.go:221-262 | Accepts exactly the requests the rules allow, with the meeple they ask for. |
| Games.Game.PlaceMeeple | internal/game/carcassonne/service/apply_action.go:221-290 | An accepted request puts the meeple down and resolves the turn, with the events of that turn in order; a refused one changes nothing. |
| Games.Game.SkipMeeple | internal/game/carcassonne/service/apply_action.go:292-308 | An accepted skip resolves the turn; a refused one changes nothing. |
| Games.Game.ApplyAction | internal/game/carcassonne/service/apply_action.go:16-46 | The outcome of every action, accepted or refused with which error, is the one of the rules; the events agree with all score and meeple changes and come in order; the invariant is kept. |
| Games.Game.ApplyTurnTimeout | internal/game/carcassonne/service/apply_action.go:48-112 | While the match runs a timeout always succeeds, with a legal placement and a resolved turn or just a resolved turn. |
| Games.Game.RandomTilePlacement | internal/game/carcassonne/service/apply_action.go:177-195 | In the tile phase there always is a listed placement, and the one chosen is legal. |
| Games.Game.constructor | internal/game/carcassonne/service/init_match.go:16-122 | Seats, hands, start tile and first draw; finished from the start exactly if the draw finds nothing. |
| Games.Game.Clone | internal/game/carcassonne/service/bot.go:443-458 | A copy with the same content and fresh buffers. |
| Games.MatchResult | internal/game/carcassonne/service/scoring.go:219-244 | The winners are exactly the players with the highest score, and the scores are listed by seat. |
| Games.Dispatched | internal/game/carcassonne/service/apply_action.go:36-45 | What the three handlers do is what the rules say, and keeps the invariant. |
| Rules.DrawIs | internal/game/carcassonne/service/scoring.go:246-267 | The relational and the functional description of the draw agree. |
| Rules.NextSeatFollows | internal/game/carcassonne/service/scoring.go:200-210 | The next player always sits at the table: in the next seat, in the first one after the last; an unknown player is followed by the first. |
| Rules.SeatsGoRound | internal/game/carcassonne/service/scoring.go:200-210 | Turns go around the table: k turns after seat i it is the turn of seat i + k modulo the number of seats, so everybody moves once before anybody moves again. |
| Rules.AcceptedZone | internal/game/carcassonne/service/apply_action.go:242-250 | An accepted meeple action names a zone of the last tile, of a scoring kind and with segments, so the later lookups cannot fail. |
| Growth.FeatureKept | internal/game/carcassonne/service/scoring.go:993-1018 | A feature of the larger board that has no zone of the new tile existed before, with the same zones and open edges. |
| Conservation.SettleKeeps | internal/game/carcassonne/service/scoring.go:100-101 | Settling a feature keeps, for every player and kind, hand plus board constant. |
| Conservation.ResolveConserves | internal/game/carcassonne/service/scoring.go:14-36 | Resolving a turn, final scoring included, keeps hand plus board constant for every player and kind. |
| Conservation.PlacingKeepsMeeples | internal/game/carcassonne/service/apply_action.go:255-266 | Putting a meeple down keeps hand plus board constant for every player and kind. |
| Conservation.FinishKeepsTiles | internal/game/carcassonne/service/scoring.go:174-217 | Ending a turn keeps the multiset of tiles on board, in deck and in hand. |
| Conservation.CurrentIsNew | internal/game/carcassonne/service/apply_action.go:133-143 | With unique instance ids the tile in hand is not yet on the board. |
| Invariants.OnlyNewTileCompletes | internal/game/carcassonne/service/scoring.go:993-1018 | If nothing completed is occupied, then after placing a tile every completed occupied road or city passes through that tile. |
| Invariants.ScoringIsComplete | internal/game/carcassonne/service/scoring.go:42-105 | Scoring only what the last tile touches leaves no completed road, city or monastery anywhere on the board occupied. |
| Invariants.PlacingKeepsInv | internal/game/carcassonne/service/apply_action.go:133-146 | Placing an accepted tile keeps the invariant. |
| Invariants.PlacingMeepleKeeps | internal/game/carcassonne/service/apply_action.go:237-266 | Putting an accepted meeple down keeps one meeple per tile, known zones, and counters at zero or more. |
| Invariants.ResolveKeepsInv | internal/game/carcassonne/service/scoring.go:14-36 | Resolving a turn leads back into the invariant, in the tile phase or finished. |
| Runs.StepKeepsInv | internal/game/carcassonne/service/apply_action.go:16-46 | Every accepted action keeps the invariant: legal connected board, unique ids, phase shape, nothing completed occupied, one meeple per tile, counters not negative. |
| Runs.StepCounts | internal/game/carcassonne/service/apply_action.go:16-46 | Every accepted action uses up exactly one of the actions the tiles allow. |
| Runs.RunIsSafe | internal/game/carcassonne/service/apply_action.go:16-46 | Over any sequence of requests by anybody: the invariant holds, tiles and meeples are conserved, and accepted actions plus actions left is constant. |
| Runs.MatchIsFinite | internal/game/carcassonne/service/scoring.go:183-198 | With n tiles to place at most 2n actions are accepted, and after 2n the match is finished. |
| Runs.RescanChangesNothing | internal/game/carcassonne/service/scoring.go:42-105 | After every turn, scoring any roads or cities anywhere on the board again changes nothing, and no completed monastery is occupied. |
| Runs.FinishedHandsAreFull | internal/game/carcassonne/service/scoring.go:825-831 | A finished match has no meeple on the board and everybody holds all meeples of both kinds again. |
| Runs.NotStuck | internal/game/carcassonne/service/scoring.go:258-261 | While the match runs the current player is a member and has an acceptable action. |
| Runs.TimeoutIsPlaceAndSkip | internal/game/carcassonne/service/apply_action.go:69-96 | A timeout in the tile phase is an accepted placement by the current player followed by an accepted skip. |
| Runs.TimeoutIsSkip | internal/game/carcassonne/service/apply_action.go:97-108 | A timeout in the meeple phase is an accepted skip. |
| Runs.TimeoutKeepsInv | internal/game/carcassonne/service/apply_action.go:48-112 | A timeout keeps the invariant, tiles and meeples, and uses up actions. |
| Runs.StartIsSafe | internal/game/carcassonne/service/init_match.go:53-104 | Every match starts inside the invariant, finished exactly if no deck tile fits the start tile, with two actions per deck tile. |
| Runs.StartMeaning | internal/game/carcassonne/service/init_match.go:53-122 | Members sit in order with no points, seven meeples and, if the settings ask for it, one big meeple each; the start tile lies in the middle, and the first member has the first deck tile that fits. |
| Bots.BotActionAccepted | internal/game/carcassonne/service/bot.go:67-130 | Whatever listed option a bot chooses, the engine accepts it. |
| Bots.BuildBotAction | internal/game/carcassonne/service/bot.go:40-130 | A bot's action is a listed tile placement, a listed meeple placement with an available type, or a skip. |
| Bots.BotSparesBig | internal/game/carcassonne/service/bot.go:383-391 | A bot takes a regular meeple as long as it has one, and its big one only then. |
| Bots.PreviewTile | internal/game/carcassonne/service/bot.go:239-285 | Look-ahead on a tile yields the scores the rules give, the meeple placements that would be listed then, and the scores each of these would bring, and leaves the match untouched. |
| Bots.PreviewMeeple | internal/game/carcassonne/service/bot.go:340-369 | Look-ahead on a meeple placement yields the scores the rules give and leaves the match untouched. |
| Bots.MeepleCanBeScored | internal/game/carcassonne/service/bot.go:340-369 | Every listed meeple placement, on the match or on a scored copy of it, meets what the look-ahead needs, so the look-ahead never fails. |
| Bots.WeighTiles | internal/game/carcassonne/service/bot.go:214-237 | A bot weighs exactly the legal tile placements, each with the scores and the following meeple placements the rules would give. |
| Bots.WeighMeeples | internal/game/carcassonne/service/bot.go:287-306 | A bot weighs exactly the listed meeple placements, each with the scores the rules would give. |
| Bots.StepShortensWait | internal/match/service/match.go:343-385 | Each accepted action of another player brings a given seat's turn one step closer. |
| Bots.ApplyAutomaticBotTurns | internal/match/service/match.go:343-385 | With at most six seats and a human among them the loop ends with a human to move or the match finished, after at most two steps per other seat, never at its bound of 32. |
| BotIds.RoundTripIff | internal/game/carcassonne/service/bot.go:161-187 | An identity is read back as written if and only if the room id is not empty and has no colon and the number is positive. |
| BotIds.DecimalDigits | internal/game/carcassonne/service/bot.go:161-163 | An identity is written as the prefix bot, the room and the decimal digits of the number, separated by colons. |
| Database.VersionsGrow | internal/match/repository/postgres/action_receipt.go:131-151 | Along the history of a match versions only grow, and one version has one state. |
| Database.CurrentIsKnown | internal/match/repository/postgres/action_receipt.go:131-151 | Whoever read a version that is still current read the current state: compare-and-swap on the version is enough. |
| Transactions.PersistKeeps | internal/match/repository/postgres/action_receipt.go:107-162 | State, receipt and history commit together or not at all, only over the version they were computed from; all invariants are kept. |
| Transactions.SaveKeeps | internal/match/repository/postgres/action_receipt.go:42-52 | A refusal is stored only if the request has no receipt yet. |
| Transactions.TerminateKeeps | internal/room/repository/postgres/room.go:422-547 | Ending a match: its room waits, exactly one outbox event is written in the same step, a second termination finds nothing to end. |
| Transactions.CreateKeeps | internal/room/repository/postgres/room.go:16-48 | A new room keeps all invariants. |
| Transactions.JoinKeeps | internal/room/repository/postgres/room.go:270-332 | Joining keeps the number of humans within the capacity of the room. |
| Transactions.StartKeeps | internal/room/repository/postgres/room.go:334-401 | Starting a match, active or finished from the start, keeps all invariants: the room is playing with one active match, or stuck. |
| Transactions.StartFitsIffActive | internal/room/repository/postgres/room.go:371-392 | After a successful start the status of the room is right if and only if the new match is active; otherwise the room is stuck. |
| Transactions.StatusIsRight | internal/room/repository/postgres/room.go:371-392 | Where the invariants hold, a room none of whose matches was finished from the start is playing exactly if it has exactly one active match; no room ever has two. |
| Transactions.SettingsKeep | internal/room/repository/postgres/room.go:182-241 | New settings never push the capacity below the number of humans in the room, and keep all invariants. |
| Transactions.DeleteKeeps | internal/room/repository/postgres/room.go:589-622 | Deleting a room removes no active match and keeps all invariants. |
| Protocol.AppliedAtMostOnce | internal/match/service/match.go:118-121 | No (room, actor, action id) causes two commits. |
| Protocol.AcceptedMeansApplied | internal/match/repository/postgres/action_receipt.go:107-162 | While its room exists, a request has an accepted receipt if and only if it changed the state. |
| Protocol.HistoryIsEngineRun | internal/match/service/match.go:246-316 | Every committed state of every match, its room deleted or not, is the engine's result on the version just before it; for a final commit if it is stored in the match it was computed from. |
| Protocol.VersionOnce | internal/match/repository/postgres/action_receipt.go:131-151 | No version of any match, its room deleted or not, is produced twice. |
| Scenarios.FinalPathMixesMatches | internal/room/repository/postgres/room.go:444-460 | A run of the game's engine in which the last timeout of one match is stored as the end of another match of the same room, on whose state no move gives it. |
| Protocol.FinalPathIsRightIff | internal/room/repository/postgres/room.go:444-460 | The final state is stored in the match it was computed from if and only if that match is the active one of the room, and then it is the engine's result on the state it replaces. |
| Protocol.Cluster.Persist | internal/match/repository/postgres/action_receipt.go:107-162 | Stores exactly if the match is active at the version the state was computed from and the request has no receipt yet; the statements do what the atomic step says, rollback included. |
| Protocol.Cluster.Save | internal/match/repository/postgres/action_receipt.go:42-52 | Stores exactly if the request has no receipt and the match belongs to its room, and then just the receipt. |
| Protocol.Cluster.Terminate | internal/room/repository/postgres/room.go:422-547 | Ends exactly the active match found for the room, if its version is the one expected and the request has no receipt yet: state, receipt, one outbox event and the status of the room change in one step, or nothing does. |
| Protocol.Cluster.Join | internal/room/repository/postgres/room.go:270-332 | Lets somebody in exactly who was in already, or comes before the start while a place is left; the statements do what the atomic step says. |
| Protocol.Cluster.Start | internal/room/repository/postgres/room.go:334-401 | Starts exactly if the room waits, its humans are those the match was built for, and the seats are at least two and fit the capacity; the statements do what the atomic step says, for matches active or finished from the start. |
| Protocol.Cluster.Delete | internal/room/repository/postgres/room.go:589-606 | Deletes exactly a room that is not playing, with its matches and receipts; active matches are untouched. |
| Protocol.Cluster.ChangeSettings | internal/room/repository/postgres/room.go:182-241 | Changes exactly while the room waits and everybody who is in keeps a place; the statements do what the atomic step says. |
| Protocol.Cluster.Admit | internal/room/service/room.go:411-419 | Lets through exactly whoever was one of the bots of the room at one moment of the call, or one of its humans at a later one. |
| Protocol.Cluster.Store | internal/match/service/match.go:246-316 | Stores the engine's result as the next version; fails exactly on a stored receipt or a version that is no longer that of the active match of the room. |
| Protocol.Cluster.StoreFor | internal/room/service/room.go:397-440 | A result is stored as the next version of an active match; one that ends the match is stored only for an actor who was let through. Nothing is stored only if the request has a receipt, the actor was not in the room, or the version read was no longer that of the active match of the room. |
| Protocol.Cluster.ApplyAction | internal/match/service/match.go:105-203 | With any other callers between any two steps, without locks: the reply is what the stored receipt says, and every reply has its reason. Accepted: the engine's result on the very match, version, phase and turn of the request was stored during the call, as the next version. Rejected: the engine refused on that state, or at some moment of the call the room had another state. No active match: at some moment there was none. An error: the room had moved on, or the actor was not in it. Malformed exactly if invalid; a request that had a receipt gets exactly its answer. If no connection breaks there is always such a reply. |
| Protocol.Cluster.StoreAndReply | internal/match/service/match.go:154-203 | If storing fails or seems to, the receipt decides the reply, and without one the state of the match does, with the same reasons. |
| Protocol.Cluster.Reject | internal/match/service/match.go:504-546 | A refusal is answered only as stored, with the code and version it was given; without that, an earlier receipt answers, or the room is gone. |
| Protocol.Cluster.ApplyTurnTimeout | internal/match/service/match.go:205-244 | Every reply has its reason. Success: the engine's result on the very state the timeout was set for (match, version, phase, turn and player) was committed during this call, one version higher and without a receipt; while the match goes on that state is the one replaced, at its end this holds if and only if the match is the active one of the room, and the player was in the room. Failure: the room had moved on at some moment, the engine refused on that state, or the player was not in the room. |
| Matches.MoveIsStep | internal/match/service/match.go:246-316 | Whatever the service asks of the engine, an action or a timeout, a new state keeps room, players and the invariant, uses up actions, and ends the match exactly if its phase is finished. |
| Matches.EveryVersionIsSafe | internal/match/service/match.go:246-316 | Over any interleaving of actions and timeouts in any number of rooms with any players, every version of a match that was ever stored satisfies the game's invariant for its own players, and each version used up at least one of the actions left, provided no final state came from another match. |
| Matches.StoredStateIsSafe | internal/match/service/match.go:246-316 | The state stored now satisfies the game's invariant, and the number of versions is bounded by the tiles of the match; the same condition applies. |
| Matches.StartedRoomFitsIff | internal/game/carcassonne/service/init_match.go:75-86 | After a match of this game was started, the status of its room is right if and only if some tile of the deck fits the start tile; otherwise the room is stuck. |
| Scenarios.TwoRoomsPlay | internal/match/service/match.go:246-316 | A database with two matches in two rooms, without a common player and each with a move, meets everything the results on stored states assume. |
| Scenarios.StartedAndDead | internal/game/carcassonne/service/init_match.go:75-86 | With a catalog that holds only the start tile, two players start a match, and their room is playing without an active match. |
| Lifecycles.DeadStep | internal/room/repository/postgres/room.go:334-401 | In a room that is playing without an active match, no transaction can end or start a match, change the settings or delete the room. |
| Lifecycles.DeadForever | internal/room/repository/postgres/room.go:334-401 | Over any run of transactions in any rooms such a room stays as it is for ever. |
| Lifecycles.DeadIffStuck | internal/room/repository/postgres/room.go:371-392 | Where the invariants hold, these are exactly the rooms whose status is wrong, and exactly those that hold a match finished from the start and no active one. |
| Publishing.RetryDelayGrows | internal/outbox/service/publisher.go:95-101 | The delay doubles up to 256 seconds and never shrinks; the bound of five minutes is never reached. |
| Publishing.LeaseExcludes | internal/outbox/repository/postgres/repository.go:31-67 | While a lease runs nobody claims the event, and right after it the event can be claimed again; every claim counts one attempt. |
| Publishing.DeadLettersComeLast | internal/outbox/service/publisher.go:76-91 | A copy goes to the topic of its event as long as the attempts do not exceed the limit, and only then to the dead letters. |
| Publishing.Outbox.Insert | internal/outbox/repository/postgres/repository.go:20-29 | Stores an event unpublished and due at once. |
| Publishing.Outbox.ClaimBatch | internal/outbox/repository/postgres/repository.go:31-67 | Claims only unpublished, due events under no running lease and not held by another claim, each once, the oldest of these first, as many as the limit allows, and leases exactly those. |
| Publishing.Outbox.MarkPublished | internal/outbox/repository/postgres/repository.go:69-79 | Changes only an unpublished event, of which a copy went out: it is published and its lease is gone. |
| Publishing.Outbox.MarkFailed | internal/outbox/repository/postgres/repository.go:81-96 | Changes only an unpublished event: its lease is gone and it is due again after the delay. |
| Publishing.Outbox.PublishOne | internal/outbox/service/publisher.go:76-91 | After one event has gone through: if sending succeeded, it is published and its copy went to its topic, or to the dead letters if the attempts exceed the limit; otherwise it waits for the delay of its attempt. |
| Publishing.Outbox.PublishBatch | internal/outbox/service/publisher.go:71-93 | Whatever other publishers, crashes and lost acknowledgements do: no event is marked published unless a copy reached its topic or the dead-letter topic, every copy was sent on a real attempt to the topic that attempt asks for, and no event is lost. |
| Projection.OneMoreEvent | internal/analytics/repository/postgres/repository.go:50-79 | What a set of events adds up to does not depend on the order in which they are taken. |
| Projection.Tables.ApplyMatchFinished | internal/analytics/repository/postgres/repository.go:21-103 | Statistics and the set of unlocked achievements are a function of the set of consumed events, and an achievement keeps the match and time it was first unlocked with; a duplicate changes nothing. |
| Projection.Consume | internal/analytics/repository/postgres/repository.go:21-103 | Any deliveries, in any order and with any repetitions, give the tables of the set of delivered events; an achievement that was not unlocked before records the match and time of the first delivery that unlocks it. |
| Projection.Tables.MatchesAddUp | internal/analytics/repository/postgres/repository.go:55-78 | Matches equal wins plus losses plus draws for every user and game. |
| Projection.SameEventsSameTables | internal/analytics/repository/postgres/repository.go:21-103 | Two consumers that saw the same events agree. |
| Projection.RecordsAgreeIff | internal/analytics/repository/postgres/repository.go:87-95 | Two consumers of the same events unlock the same achievements, and record the same match for one if and only if the first deliveries that unlock it carry the same match and time. |
| Deliveries.MatchesAreEvents | internal/analytics/repository/postgres/repository.go:50-79 | The matches in the statistics of a user are as many as the consumed events of matches the user took part in. |
| Deliveries.ResultsAreEvents | internal/analytics/repository/postgres/repository.go:50-79 | Wins and draws in the statistics are as many as the consumed matches the user won and drew; a draw is neither won nor lost. |
| Deliveries.BestIsReached | internal/analytics/repository/postgres/repository.go:65-79 | The total adds up the points of the matches the user took part in, and the best result is the largest of them. |
| Deliveries.UnlockedMeaning | internal/analytics/repository/postgres/repository.go:81-95 | A user has the first achievement exactly after some match that counts, the second after one of Carcassonne, and the third after a win in one. |
| Deliveries.CountedAtMostOnce | internal/room/repository/postgres/room.go:422-547 | Where database, outbox, deliveries and consumed events are linked: the matches counted for a user are different matches the user took part in, each ended, with exactly one event. |
| Lifecycles.TransactionKeeps | internal/room/repository/postgres/room.go:422-547 | Every transaction keeps all invariants of the database; only the successful end of a match writes an event, one about the match that was active. |
| Chains.NextKeeps | internal/outbox/repository/postgres/repository.go:20-29 | Every step of every service (a transaction, the end of a match with its event, publishing, delivering, consuming) keeps database, outbox, deliveries and consumed events linked. |
| Chains.CountedOverRuns | internal/analytics/repository/postgres/repository.go:21-103 | Over any run of all services together, from the empty system, with any retries, losses, repetitions and orders: the matches counted for a user are as many different matches the user took part in, each ended, with exactly one event. |
| ChainScenario.OneMatchIsCounted | internal/room/repository/postgres/room.go:422-547 | A run from the opening of a room to the statistics: a match ends by a timeout, its event arrives twice, and it is counted once for each of its players. |
| TurnTimers.Timers.Schedule | internal/ws/turn_timer.go:63-121 | Other rooms keep their entries; a late response changes nothing; a running turn keeps its deadline, a new one gets its own; a response without a player to move leaves no entry of its match. |
| TurnTimers.TakenIff | internal/ws/turn_timer.go:90-121 | A response that times a turn is taken exactly if the entry it meets is of no later version of its match, or of a match created earlier or nobody knows when; its deadline is that of the running turn, or the start of the turn (or now) plus the seconds of a turn. |
| TurnTimers.ScheduleMovesForwardIff | internal/ws/turn_timer.go:90-116 | While the entry of a room lives, it moves forward in known creation time or in version, exactly unless an entry of unknown creation time is replaced by one of another match. |
| TurnTimers.DeadlineIsFixed | internal/ws/turn_timer.go:90-116 | Over any run of updates, late and repeated ones, and of stops: while the entry of a room lives, creation time, version and turn never go back, and the deadline of one turn never changes, unless the creation times of its match and of another match timed in the room are both unknown. |
| TurnTimers.DeadlinesFixedIff | internal/ws/turn_timer.go:90-116 | Deadlines are fixed in a room, from whatever table on, if and only if no two matches timed in that room have unknown creation times; other rooms do not matter. |
| TurnTimers.AlwaysFixedIff | internal/ws/turn_timer.go:90-116 | From the empty table on, deadlines are fixed in a room if and only if no two matches timed in it have unknown creation times, or the responses of such matches say when each turn started and agree about its end. |
| TimedMatches.TurnsGoUp | internal/game/carcassonne/service/scoring.go:174-217 | While a match runs, turns go up with its stored versions, and one player has a turn, whatever happens in any room. |
| TimedMatches.ResponsesAreOrdered | internal/ws/turn_timer.go:68-84 | Responses that show stored versions of running matches meet all that the results on deadlines ask of them. |
| TimedMatches.ResponsesFixDeadlinesIff | internal/ws/turn_timer.go:90-116 | For such responses the exact condition of fixed deadlines holds without further assumptions. |
| TurnTimers.UnknownTimesMoveDeadline | internal/ws/turn_timer.go:90-116 | For any two matches of unknown creation time timed in one room, whatever the table: a response of the one and then of the other give the turn that was timed a new deadline. |
| Registries.Registry.Add | internal/ws/registry.go:30-38 | Keeps index and connections in agreement if and only if the id is not connected in a room already. |
| Registries.Registry.SetRoom | internal/ws/registry.go:48-77 | Moves a registered connection between rooms, keeps the index exact and free of empty entries; a replaced connection changes nothing. |
| Registries.Registry.Remove | internal/ws/registry.go:79-94 | Removes the connection and its index entry. |
| Registries.Registry.HasLocalClientForActor | internal/ws/registry.go:130-143 | The indexed lookup answers as a scan of all connections would. |
| Registries.AddKeepsIndex | internal/ws/registry.go:30-38 | A second connection under an id still in a room leaves a stale entry, and only that does. |

## Left out

- HTTP, WebSocket, Kafka, Redis, MinIO, JSON, SHA-256, UUIDs, SQL text, middleware, configuration, logging: plumbing.
- Wall-clock time and randomness are arguments or arbitrary choices; shuffling gives an arbitrary deck.
- The concrete tiles of the catalog asset: any validated catalog is covered.
- Requests whose payload cannot be decoded, and segment strings that name no segment.
- Details of events that only the display uses: ids, anchors, contributing cities, score markers; activities; the start
  time of a turn.
- The numbers a bot makes of what it sees (floating-point heuristics, among them the long-term worth of an unfinished
  feature): a bot may choose any listed option. What its look-ahead sees on copies of the match, the meeple placements
  after a tile included, is modelled.
- Inside the protocol, automatic bot turns are commits without a receipt by some other caller; that the loop ends is
  proved on the engine (`Bots.ApplyAutomaticBotTurns`).
- The match state a reply carries beside status, version and error of the receipt.
- Name, privacy, game type and options of a room, and the computation of seat limits; the places reserved for bots are
  read outside the joining transaction, so no claim about humans plus bots is made.
- Kicking, disconnect marks and the clean-up of stale rooms, apart from the deletion of a room.
- Stored error messages, and the partitioning of topics.
- Tickets, sessions, profiles and ranking.
- The goroutine that fires a timer (only the table of timers is modelled, and the call it makes is
  `Protocol.Cluster.ApplyTurnTimeout`), and the mutex per connection.
- FinalEventsAreFixed: says nothing about the parts of an event, which are proved to be sorted and to add up
  (`FinalPayments.ScoreFinalFeature`); the zone that stands for a tile depends on the order of the search.
