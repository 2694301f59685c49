# Battle for Fell Desert: text engine, modelled in Dafny

This project models the text-rendering layer of the Battle for Fell Desert text engine. That
layer turns the state of the mission engine into the lines the player reads. It covers:

- the map view: the terrain symbols, the squaddie labels, the hex-offset grid, the legend and
  the squaddie listing;
- the coordinate inspector, which parses a typed coordinate and describes that tile;
- the squaddie detail inspector, which lists the squaddie's conditions;
- the squaddie action inspector, which lists valid and invalid actions with their action-point
  cost;
- the controllable squaddie listing;
- the mission objective listing, split into objectives and failure conditions, completed first;
- the command processor: `q` quits and anything else is echoed.

The mission engine itself is not modelled. It appears as an immutable `Engine.Snapshot` value
that holds what the renderers ask of it:

- the map overview;
- the squaddie info and position lookups;
- the three objective lists;
- the squaddies who can act.

Each module follows one source file. Functions stand for expressions and `map` callbacks. Loops
that push onto an array become methods with loop invariants. Each such method is proved equal to
a specification function. The meaning of that function is proved in lemmas:

- how the text reads back, line by line (`Lines(JoinLines(...))`);
- which label each squaddie gets;
- which inputs parse, and what they parse to;
- which lines appear, and where.

The modules are:

- `Text`: the string helpers every renderer uses. These are trimming, upper-casing, decimal
  printing and `join`/`split`.
- `Wrappers`: the `Option` type.

Points where the code does something other than its own comments or names suggest:

- **Label uniqueness.** The comments at `src/mapRenderer.ts:14` and `src/mapRenderer.ts:53`
  speak of a "unique" label for each squaddie. The code only makes labels distinct within one
  first-character group. `MapRenderer.LabelsCanCollideAcrossGroups` shows that the ids `lini`,
  `largo` and `archer` give both `largo` and `archer` the label `A`.
- **Criterion descriptions.** `buildCriteriaDescription` (`src/missionObjectiveInspector.ts:53-76`)
  produces three forms, in this order of precedence: `Defeat <word>: <ids>` when the criterion
  names at least one affiliation, `Defeat: <ids>` when it names no affiliation but at least one
  squaddie id, and `Defeat squaddies` when it names neither.
- **Names or ids.** The "names" that `findSquaddieNamesByAffiliation` collects are the
  squaddies' out-of-battle ids, not their display names.

## Model

| member | source | states |
|---|---|---|
| MapRenderer.TerrainToSymbol | src/mapRenderer.ts:4-12 | `.` exactly for stoppable cost-1 terrain, `~` for other stoppable terrain, `_` for non-stoppable terrain with a cost, `#` exactly when there is no movement cost |
| Engine.OccupiedTilesMembers | src/mapRenderer.ts:21-27 | the row-major scan finds exactly the occupied tiles of the map |
| Engine.RowOccupied | src/mapRenderer.ts:22-26 | the occupied tiles of a row are tiles of that row, and every occupied tile of the row is among them |
| Engine.Keys | src/mapRenderer.ts:24 | the collected ids are the tiles' out-of-battle ids, one per tile, in order |
| MapRenderer.CollectSquaddieIds | src/mapRenderer.ts:18-27 | the collecting loop yields the ids of the row-major scan |
| MapRenderer.GroupByFirstChar | src/mapRenderer.ts:32-39 | the grouping loop yields the groups keyed by upper-cased first character, with keys in first-seen order |
| MapRenderer.GroupMembers | src/mapRenderer.ts:33-39 | a group holds exactly the ids whose upper-cased first character is its key |
| MapRenderer.GroupSnoc | src/mapRenderer.ts:38 | one more id is appended to its own group and to no other |
| MapRenderer.AddToGroup | src/mapRenderer.ts:34-38 | filing an id appends it to its group, opening the group at the end of the key order only when it is new; other groups are untouched |
| MapRenderer.GroupedSnoc | src/mapRenderer.ts:33-39 | filing the next id keeps the groups and the key order equal to those of the ids scanned so far |
| MapRenderer.GroupKeysMembers | src/mapRenderer.ts:35-37 | a character is a group key exactly when some id starts with it |
| MapRenderer.GroupDistinct | src/mapRenderer.ts:32-39 | a group of distinct ids has no repeated member |
| MapRenderer.SetSizeDistinct | src/mapRenderer.ts:65-66 | the `Set` size test holds exactly when the candidates are pairwise different |
| MapRenderer.CandidateLabels | src/mapRenderer.ts:60-63 | the candidate at offset k is the upper-cased character at k, or the first character when the id is shorter |
| MapRenderer.SearchFromFound | src/mapRenderer.ts:59-72 | an offset the search returns lies in its range and gives pairwise different candidates |
| MapRenderer.SearchFromSkipped | src/mapRenderer.ts:59-72 | every offset the search passes over repeats a candidate |
| MapRenderer.FirstDistinctOffsetLeast | src/mapRenderer.ts:59-73 | the chosen offset is the least offset in 1..19 with distinct candidates; there is none exactly when all 19 offsets repeat one |
| MapRenderer.FallbackLabels | src/mapRenderer.ts:76-78 | the fallback label of the i-th member is its upper-cased first character followed by i in decimal |
| MapRenderer.AssignDisambiguatedLabels | src/mapRenderer.ts:54-79 | the caller's label map gains each group member, mapped to the label the search or the fallback gives it; other keys keep their values |
| MapRenderer.SetLabels | src/mapRenderer.ts:68-70 | the `labels.set` loop maps each member to its label in turn, later members overriding earlier ones |
| MapRenderer.SetEachProps | src/mapRenderer.ts:68-70 | after the `labels.set` loop the keys are the old ones plus the group; keys outside the group keep their labels; each member maps to its own label |
| MapRenderer.BuildSquaddieLabels | src/mapRenderer.ts:15-51 | the label map is the labelling of the scanned ids; its keys are exactly the scanned ids; every occupied tile's id has a label |
| MapRenderer.AssignGroupLabels | src/mapRenderer.ts:40-47 | the loop over the groups, in the Map's key order, leaves the label map that assigning each group's labels in that order gives |
| MapRenderer.LabelGroup | src/mapRenderer.ts:42-46 | a group of one maps its id to the key; any other group gets the offset search's labels, set member by member |
| MapRenderer.LabelsDomain | src/mapRenderer.ts:41-48 | every scanned id receives a label, and only scanned ids do |
| MapRenderer.LabelOfGroupMember | src/mapRenderer.ts:42-48 | the label of the i-th member of a group is the i-th label that group is assigned |
| MapRenderer.UniqueFirstCharLabel | src/mapRenderer.ts:43-44 | an id whose upper-cased first character no other id shares is labelled with that character |
| MapRenderer.CollidingGroupLabels | src/mapRenderer.ts:45-46 | a colliding group's members get the candidates at the least distinct offset, or else first character and index |
| MapRenderer.GroupLabelsDistinct | src/mapRenderer.ts:42-48 | the labels given to one group are pairwise different |
| MapRenderer.LabelsDistinctWithinGroup | src/mapRenderer.ts:42-48 | two different ids with the same upper-cased first character get different labels |
| MapRenderer.LiniLargoOffset | src/mapRenderer.ts:59-72 | "lini" and "largo" are first told apart at offset 1, where "largo" reads "A" |
| MapRenderer.ArcherLabel | src/mapRenderer.ts:43-44 | with ids lini, largo, archer, "archer" is labelled "A" |
| MapRenderer.LargoLabel | src/mapRenderer.ts:45-46 | with ids lini, largo, archer, "largo" is labelled "A" |
| MapRenderer.LabelsCanCollideAcrossGroups | src/mapRenderer.ts:14-51 | labels are not unique across groups: "largo" and "archer" both get "A" |
| MapRenderer.LabelsCoverScan | src/mapRenderer.ts:92-94 | every occupied tile's id has a label, so the grid's and the listing's `!` lookups succeed |
| MapRenderer.LabelsEmptyIff | src/mapRenderer.ts:121 | the label map is empty exactly when no tile is occupied |
| MapRenderer.Cells | src/mapRenderer.ts:90-97 | a row's cells are, left to right, the occupant's label or else the terrain symbol |
| MapRenderer.GridLines | src/mapRenderer.ts:88-99 | the grid has `height` lines; line r is the indented, space-separated cells of row r |
| MapRenderer.RenderGridLines | src/mapRenderer.ts:82-102 | the row loop yields exactly the grid lines |
| MapRenderer.GridLineReadsBack | src/mapRenderer.ts:89-98 | splitting a grid line at spaces gives back the row's cells, after one empty piece for an odd row's indent, when no label holds a space |
| MapRenderer.RenderLegend | src/mapRenderer.ts:105-114 | the legend is six lines, introduced by a blank one |
| MapRenderer.LegendExplainsEverySymbol | src/mapRenderer.ts:105-114 | every symbol the grid can show has a legend line `"  <symbol> ="` |
| MapRenderer.ListLines | src/mapRenderer.ts:130 | one listing line per occupied tile, in order, naming label, id and the tile's own coordinate |
| MapRenderer.ScanLabelled | src/mapRenderer.ts:125-133 | on a labelled map, every tile the listing visits has a label |
| MapRenderer.RenderSquaddieList | src/mapRenderer.ts:117-136 | the nested loop yields the listing: nothing when no squaddie has a label, else the heading and one line per occupied tile in row-major order |
| MapRenderer.MapLineCount | src/mapRenderer.ts:139-148 | the map is one header line, `height` grid lines, six legend lines and, when a tile is occupied, a heading plus one line per occupied tile |
| MapRenderer.RenderMap | src/mapRenderer.ts:139-148 | the rendered text is header, grid, legend and listing joined by line feeds |
| MapRenderer.GroupLabelOneLine | src/mapRenderer.ts:41-78 | a group's label holds no line feed when its ids hold none: it is a character of an id, or a first character and a decimal index |
| MapRenderer.LabelOneLine | src/mapRenderer.ts:15-51 | no label holds a line feed when no out-of-battle id does |
| MapRenderer.GridLineOneLine | src/mapRenderer.ts:88-99 | a grid line holds no line feed when no label does |
| MapRenderer.ListLineOneLine | src/mapRenderer.ts:129-130 | a listing line holds no line feed when its label and id hold none |
| MapRenderer.MapLinesOneLine | src/mapRenderer.ts:139-148 | no line of the rendered map holds a line feed when no out-of-battle id does |
| MapRenderer.MapTextLines | src/mapRenderer.ts:139-148 | split at line feeds, the map reads back as the header, the `height` grid lines, the six legend lines and the listing, at their positions and with the stated count, when no out-of-battle id holds a line feed |
| CoordinateInspector.ParseCoordinate | src/coordinateInspector.ts:5-14 | a parsed coordinate has a non-negative row and column |
| CoordinateInspector.DigitRunProps | src/coordinateInspector.ts:9 | the `\d+` run is all digits and stops at the first non-digit |
| CoordinateInspector.SeparatorRunProps | src/coordinateInspector.ts:9 | the `[,\s]+` run is all separators and stops at the first non-separator |
| CoordinateInspector.StripParensShape | src/coordinateInspector.ts:9 | the optional parentheses are at most one `(` in front and one `)` behind |
| CoordinateInspector.ParseBodyOf | src/coordinateInspector.ts:9-13 | digits, separators, digits parse to the two decimal values |
| CoordinateInspector.ParseComplete | src/coordinateInspector.ts:8-13 | every text of the regular expression's shape parses, to its two decimal values |
| CoordinateInspector.ParseSound | src/coordinateInspector.ts:8-13 | every text that parses has the regular expression's shape, and parses to its two decimal values |
| CoordinateInspector.ParsedChars | src/coordinateInspector.ts:9 | a parsed text holds only parentheses, digits and separators |
| CoordinateInspector.ParsedHasSeparator | src/coordinateInspector.ts:9 | a parsed text holds at least one separator |
| CoordinateInspector.ParseRoundTrip | src/coordinateInspector.ts:5-14 | a printed row and column, with any separators and optional parentheses, parse back to the same coordinate |
| CoordinateInspector.BareRoundTrip | src/coordinateInspector.ts:5-14 | "row sep col" without parentheses parses back to the same coordinate |
| CoordinateInspector.UnclosedParenthesis | src/coordinateInspector.ts:9 | "(1 2" parses, since both parentheses are optional on their own |
| CoordinateInspector.LetterRejected | src/coordinateInspector.ts:9-12 | input holding a letter does not parse |
| CoordinateInspector.NoSeparatorRejected | src/coordinateInspector.ts:9-12 | trimmed input without a comma or whitespace does not parse |
| CoordinateInspector.TerrainName | src/coordinateInspector.ts:17-25 | "Wall" exactly without a cost, "Pit" for non-stoppable terrain with a cost, "Standard" for stoppable cost 1, "Difficult" otherwise |
| CoordinateInspector.TerrainNameMatchesSymbol | src/coordinateInspector.ts:17-25 | each terrain name goes with exactly one map symbol: Wall `#`, Pit `_`, Standard `.`, Difficult `~` |
| CoordinateInspector.InspectCoordinate | src/coordinateInspector.ts:28-59 | the report is its lines joined by line feeds |
| CoordinateInspector.OffMapIff | src/coordinateInspector.ts:35-42 | the report is the single off-map message exactly when the coordinate is outside the map |
| CoordinateInspector.OnMapLines | src/coordinateInspector.ts:44-56 | on the map, the first line is "(r,c): <terrain>", followed by three occupant lines when a squaddie stands there |
| CoordinateInspector.InspectTextLines | src/coordinateInspector.ts:28-59 | read back line by line, the report is its lines: four with an occupant, else one |
| Engine.TileAt | src/coordinateInspector.ts:44-49 | the tile looked up for a coordinate sits at that coordinate |
| SquaddieDetailInspector.ConditionTypeName | src/squaddieDetailInspector.ts:7-18 | each kind's name is non-empty and holds no colon, parenthesis, space or line feed |
| SquaddieDetailInspector.ConditionTypeNameInjective | src/squaddieDetailInspector.ts:7-14 | no two kinds share a display name |
| SquaddieDetailInspector.FormatCondition | src/squaddieDetailInspector.ts:20-32 | the method builds the name followed by the amount and duration suffixes |
| SquaddieDetailInspector.AmountSuffixShape | src/squaddieDetailInspector.ts:23-25 | the amount suffix is present exactly with an amount and starts with the colon |
| SquaddieDetailInspector.DurationSuffixShape | src/squaddieDetailInspector.ts:27-29 | the duration suffix is present exactly with a duration and starts with " (" |
| SquaddieDetailInspector.ConditionTextMarks | src/squaddieDetailInspector.ts:20-32 | the text has a colon exactly with an amount, a parenthesis exactly with a duration, and no line feed |
| SquaddieDetailInspector.ZeroAmountShown | src/squaddieDetailInspector.ts:23 | an amount of zero is still shown, as ": 0" |
| SquaddieDetailInspector.ConditionTextInjective | src/squaddieDetailInspector.ts:20-32 | a condition's text determines the condition: kind, amount and duration |
| SquaddieDetailInspector.ConditionLines | src/squaddieDetailInspector.ts:41-43 | one line per condition |
| SquaddieDetailInspector.FormatSquaddieDetails | src/squaddieDetailInspector.ts:34-45 | the block is empty exactly when there are no conditions |
| SquaddieDetailInspector.DetailsLines | src/squaddieDetailInspector.ts:34-45 | read back line by line, the block is "Conditions:" and then one indented line per condition |
| SquaddieActionInspector.FormatActionPointCost | src/squaddieActionInspector.ts:15-25 | the suffix is empty exactly for no cost or a cost of 0; otherwise it starts with " (" |
| SquaddieActionInspector.CostSuffixInjective | src/squaddieActionInspector.ts:15-25 | a non-empty suffix determines the cost |
| SquaddieActionInspector.CostSuffixOneLine | src/squaddieActionInspector.ts:15-25 | the suffix holds no line feed |
| SquaddieActionInspector.InvalidLines | src/squaddieActionInspector.ts:41-43 | one line per invalid action, in order |
| SquaddieActionInspector.ValidLines | src/squaddieActionInspector.ts:48-54 | one line per valid action, in order |
| SquaddieActionInspector.AppendInvalidLines | src/squaddieActionInspector.ts:41-43 | the loop appends exactly one line per invalid action, in order |
| SquaddieActionInspector.AppendValidLines | src/squaddieActionInspector.ts:48-54 | the loop appends exactly one line per valid action, with its cost suffix, in order |
| SquaddieActionInspector.FormatSquaddieActions | src/squaddieActionInspector.ts:27-58 | the loops build the action lines joined by line feeds |
| SquaddieActionInspector.ActionsTextEmpty | src/squaddieActionInspector.ts:33-35 | the text is empty exactly when there are no invalid and no valid actions |
| SquaddieActionInspector.ActionLinesLayout | src/squaddieActionInspector.ts:37-55 | "Actions:"; then "  Invalid:" and the invalid lines if any; then "  Valid:" and the valid lines if any, at the stated positions |
| SquaddieActionInspector.ActionLinesOneLine | src/squaddieActionInspector.ts:37-55 | when names and reasons hold no line feed, no line of the block does |
| SquaddieActionInspector.ActionsTextLines | src/squaddieActionInspector.ts:37-57 | read back line by line, the text is its lines when names and reasons are one line each |
| SquaddieActionInspector.ValidLineShowsCost | src/squaddieActionInspector.ts:49-53 | a valid action's line is the bare name exactly when its cost is missing or zero |
| ControllableSquaddieInspector.FormatCoordinate | src/controllableSquaddieInspector.ts:13-23 | the position is always enclosed in parentheses, at least three characters long |
| ControllableSquaddieInspector.OffMapIff | src/controllableSquaddieInspector.ts:13-23 | the position reads "(off map)" exactly when the coordinate, its row or its column is missing |
| ControllableSquaddieInspector.FormatCoordinateParsesBack | src/controllableSquaddieInspector.ts:22 | a known position is printed in a form the coordinate parser reads back to the same tile |
| ControllableSquaddieInspector.OffMapNotParsed | src/controllableSquaddieInspector.ts:20 | the off-map marker does not parse as a coordinate |
| ControllableSquaddieInspector.FormatEntry | src/controllableSquaddieInspector.ts:25-28 | an entry line starts with two spaces and the squaddie's name, followed by more text (the position and action points) |
| ControllableSquaddieInspector.FormatEntryOneLine | src/controllableSquaddieInspector.ts:25-28 | an entry line is one line when the name is |
| ControllableSquaddieInspector.GatherEntries | src/controllableSquaddieInspector.ts:30-45 | one entry per squaddie who can act, in order, with that squaddie's name, action points and position |
| ControllableSquaddieInspector.EntryLines | src/controllableSquaddieInspector.ts:53-55 | one line per entry: line i is entry i, formatted, in order |
| ControllableSquaddieInspector.AppendEntryLines | src/controllableSquaddieInspector.ts:53-55 | the loop appends exactly the formatted entries, in order, after the lines it is given |
| ControllableSquaddieInspector.FormatEntries | src/controllableSquaddieInspector.ts:47-57 | the loop builds the notice or the heading and entry lines, joined by line feeds |
| ControllableSquaddieInspector.EntriesTextLines | src/controllableSquaddieInspector.ts:47-57 | read back line by line: just the notice when nobody can act, else the heading and one line per entry |
| ControllableSquaddieInspector.GatheredEntryNamed | src/controllableSquaddieInspector.ts:25-44 | the i-th listed line starts with the i-th acting squaddie's own name |
| MissionObjectiveInspector.AffiliationDisplayName | src/missionObjectiveInspector.ts:17-22 | each affiliation has a non-empty display word |
| MissionObjectiveInspector.AffiliationDisplayNameInjective | src/missionObjectiveInspector.ts:17-22 | no two affiliations share a display word |
| MissionObjectiveInspector.HasFailureReward | src/missionObjectiveInspector.ts:24-28 | true exactly when some reward is a mission failure |
| MissionObjectiveInspector.IsFailureObjective | src/missionObjectiveInspector.ts:24-28 | an objective is a failure condition exactly when one of its rewards is a mission failure |
| MissionObjectiveInspector.FailureIgnoresCriteria | src/missionObjectiveInspector.ts:24-28 | failure classification depends only on the rewards, not on the criteria |
| MissionObjectiveInspector.MatchingIdsMembers | src/missionObjectiveInspector.ts:37-48 | an id is collected exactly when a scanned tile holds it and its affiliation is in the set |
| MissionObjectiveInspector.MatchingIdsAll | src/missionObjectiveInspector.ts:37-48 | when every tile matches, all ids are collected, in scan order |
| MissionObjectiveInspector.MatchingIdsSnoc | src/missionObjectiveInspector.ts:39-46 | one more tile adds its id at the end exactly when it is occupied by a matching squaddie |
| MissionObjectiveInspector.MatchingNamesMembers | src/missionObjectiveInspector.ts:30-51 | an id is in the result exactly when a tile of the map holds it and its affiliation is in the set |
| MissionObjectiveInspector.FindSquaddieNamesByAffiliation | src/missionObjectiveInspector.ts:30-51 | the nested loop yields the matching out-of-battle ids in row-major order |
| MissionObjectiveInspector.BuildCriteriaDescription | src/missionObjectiveInspector.ts:53-76 | the method yields the affiliation form, else the ids form, else "Defeat squaddies" |
| MissionObjectiveInspector.CriteriaDescriptionStartsDefeat | src/missionObjectiveInspector.ts:53-76 | every description starts with "Defeat" |
| MissionObjectiveInspector.AffiliationsTakePrecedence | src/missionObjectiveInspector.ts:57-65 | with a non-empty affiliation set, the listed ids do not matter |
| MissionObjectiveInspector.Descriptions | src/missionObjectiveInspector.ts:85-89 | at most one description per criterion |
| MissionObjectiveInspector.DescriptionsProps | src/missionObjectiveInspector.ts:85-89 | descriptions are non-empty; there are none exactly when no criterion is a squaddies-defeated one |
| MissionObjectiveInspector.ObjectiveToEntry | src/missionObjectiveInspector.ts:78-96 | the loop builds the entry: descriptions joined by "; ", the given completion, the failure flag |
| MissionObjectiveInspector.EntryDescriptionEmpty | src/missionObjectiveInspector.ts:91-93 | the description is empty exactly when no criterion is a squaddies-defeated one |
| MissionObjectiveInspector.EntriesOf | src/missionObjectiveInspector.ts:104-106 | one entry per objective, in order, with the given completion |
| MissionObjectiveInspector.AppendEntries | src/missionObjectiveInspector.ts:110-112 | the loop appends one entry per objective to what is there |
| MissionObjectiveInspector.GatherEntries | src/missionObjectiveInspector.ts:98-121 | the three loops yield the in-progress, then the completed-not-rewarded, then the completed-and-rewarded entries |
| MissionObjectiveInspector.GatheredEntriesCompletion | src/missionObjectiveInspector.ts:98-121 | there is one entry per objective, and an entry is marked completed exactly when it comes after the in-progress ones |
| MissionObjectiveInspector.HavingMembers | src/missionObjectiveInspector.ts:143-144 | the filter keeps exactly the entries with the flag value |
| MissionObjectiveInspector.HavingSplits | src/missionObjectiveInspector.ts:143-144 | the two filters together hold every entry exactly once |
| MissionObjectiveInspector.HavingAppend | src/missionObjectiveInspector.ts:143-144 | filtering distributes over concatenation |
| MissionObjectiveInspector.SortEntriesOrdered | src/missionObjectiveInspector.ts:123-131 | after sorting, no completed entry follows an incomplete one |
| MissionObjectiveInspector.SortEntries | src/missionObjectiveInspector.ts:123-131 | sorting is a permutation: the same entries, each as often |
| MissionObjectiveInspector.SortEntriesStable | src/missionObjectiveInspector.ts:123-131 | sorting keeps the relative order among completed entries and among incomplete ones |
| MissionObjectiveInspector.FormatEntryLine | src/missionObjectiveInspector.ts:133-136 | the line is "- " and the description, followed by " [DONE]" exactly when completed (seven more characters, those of the marker) |
| MissionObjectiveInspector.EntryLines | src/missionObjectiveInspector.ts:151-153 | one line per entry, in order |
| MissionObjectiveInspector.AppendSection | src/missionObjectiveInspector.ts:149-153 | the loop appends the heading and one line per sorted entry |
| MissionObjectiveInspector.FormatEntries | src/missionObjectiveInspector.ts:138-165 | the text is the objective and failure sections joined by line feeds |
| MissionObjectiveInspector.PartitionCount | src/missionObjectiveInspector.ts:143-144 | objectives and failures together number the entries |
| MissionObjectiveInspector.ObjectiveLinesLayout | src/missionObjectiveInspector.ts:141-164 | "Objective:" and its lines appear exactly when there is a success entry; "Failure:" and its lines exactly when there is a failure entry; the line count and heading positions follow |
| MissionObjectiveInspector.SectionEntriesSorted | src/missionObjectiveInspector.ts:148-162 | each section lists its own partition, completed first, as a permutation |
| MissionObjectiveInspector.FormatEntriesEmpty | src/missionObjectiveInspector.ts:141 | the text is empty exactly when there are no entries |
| MissionObjectiveInspector.FormatEntryLineOneLine | src/missionObjectiveInspector.ts:133-136 | an entry line holds no line feed when its description holds none |
| MissionObjectiveInspector.SectionOneLine | src/missionObjectiveInspector.ts:148-162 | a section's heading and entry lines hold no line feed when no description does |
| MissionObjectiveInspector.ObjectiveTextLines | src/missionObjectiveInspector.ts:141-164 | split at line feeds, a non-empty listing reads back as exactly the lines that were joined, when no description holds a line feed |
| CommandProcessor.ProcessCommand | src/commandProcessor.ts:8-16 | quitting answers "Goodbye!"; an echo is the fixed prefix followed by the input exactly as typed |
| CommandProcessor.QuitIff | src/commandProcessor.ts:9-13 | the input quits exactly when, trimmed, it is "q" or "Q" |
| CommandProcessor.PaddingIgnored | src/commandProcessor.ts:9 | surrounding whitespace never changes whether the input quits |
| CommandProcessor.CaseIgnored | src/commandProcessor.ts:9 | upper-casing the input never changes whether it quits |
| CommandProcessor.QuitWordEchoed | src/commandProcessor.ts:11-15 | "quit" is echoed, not obeyed |
| CommandProcessor.BlankEchoed | src/commandProcessor.ts:11-15 | blank input is echoed unchanged after the prefix |
| Text.Trim | src/commandProcessor.ts:9 | trimming leaves no whitespace at either end |
| Text.TrimPadded | src/commandProcessor.ts:9 | trimming removes any whitespace added around a string |
| Text.UpperTrim | src/commandProcessor.ts:9 | upper-casing and trimming commute |
| Text.IntToString | src/squaddieDetailInspector.ts:24 | a decimal numeral is non-empty, has a minus sign exactly for negatives, then only digits |
| Text.IntToStringInjective | src/squaddieDetailInspector.ts:24 | different numbers print differently |
| Text.DigitsValueOfNatToString | src/coordinateInspector.ts:13 | reading back a printed natural number gives the number |
| Text.SplitJoin | src/mapRenderer.ts:98 | splitting a join at its separator gives back the parts, when no part holds the separator |
| Text.LinesOfJoinLines | src/mapRenderer.ts:147 | text joined by line feeds reads back as the same lines, when no line holds a line feed |

## Left out

- The interactive loop in `src/index.ts` is not part of this model. It reads lines from the terminal, prints results and dispatches commands.
- The mission engine's internals are not modelled. Its getters are fields or lookups of `Engine.Snapshot`, filled in by the caller.
- Test-only helpers and command routes beyond quit and echo are not modelled.
- Strings are ASCII only. `trim` removes space, tab, line feed, vertical tab, form feed and carriage return. `toUpperCase` maps `a`–`z` only. `\s` in the coordinate pattern means the same whitespace set.
- Numbers are integers. Hit points, action points, amounts and durations never hold fractions here.
- `parseInt` gives an unbounded natural number. Very long digit runs do not lose precision here.
- JavaScript `Set` arguments become sequences in insertion order. The model relies on that order for the criterion's first affiliation and for the listed ids.
- MapRenderer.BuildSquaddieLabels requires non-empty out-of-battle ids. The source reads `id[0]` on each id and never checks for an empty one.
- MapRenderer.LabelsDistinctWithinGroup: the model proves distinct labels within a group, not across groups, because the code does not guarantee the latter (see above).
- MapRenderer.AssignDisambiguatedLabels: the shared `Map` the source mutates is a map value passed in and returned; `MapRenderer.SetLabels` and `MapRenderer.AddToGroup` work the same way on the label map and on the group map.
- MapRenderer.BuildSquaddieLabels: each of the three phases is its own helper method.
- Several properties need distinct squaddie ids: the label properties and the per-id lookups. This holds for the engine's out-of-battle ids, so those members take it as a precondition.
- MissionObjectiveInspector.SortEntriesOrdered: `Array.prototype.sort` is a library routine. The model describes the result it produces with this comparator: completed entries first, each side in its original order. The merge steps are not modelled.
- MissionObjectiveInspector.BuildCriteriaDescription: the criterion's affiliation and id sets are sequences, which could hold a repeated element that a JavaScript `Set` never does. The engine's sets are taken to be duplicate-free; a sequence with a repeat would list that id twice, which the source cannot produce.
- MissionObjectiveInspector.FindSquaddieNamesByAffiliation: the display name the engine's squaddie info carries is not used, because the code collects out-of-battle ids.
