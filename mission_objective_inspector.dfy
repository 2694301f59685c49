/**
 * The mission objective inspector: one display entry per mission objective (in progress,
 * completed but not rewarded, completed and rewarded), each described by its
 * "squaddies defeated" criteria, then rendered as an "Objective:" section and a
 * "Failure:" section with completed entries first.
 */
module MissionObjectiveInspector {
  import opened Wrappers
  import opened Text
  import opened Engine

  datatype MissionObjectiveDisplayEntry = MissionObjectiveDisplayEntry(
    description: string,
    isCompleted: bool,
    isFailureCondition: bool)

  // ---------------------------------------------------------------------------
  // Affiliation words and failure objectives
  // ---------------------------------------------------------------------------

  /** The word used for an affiliation in a description. */
  function AffiliationDisplayName(affiliation: Affiliation): (word: string)
    ensures |word| > 0
  {
    match affiliation
    case Enemy => "enemy"
    case Player => "players"
    case Ally => "allies"
    case NoAffiliation => "neutrals"
  }

  /** Different affiliations have different words. */
  lemma AffiliationDisplayNameInjective(a: Affiliation, b: Affiliation)
    requires AffiliationDisplayName(a) == AffiliationDisplayName(b)
    ensures a == b
  {
    assert AffiliationDisplayName(a)[0] == AffiliationDisplayName(b)[0];
  }

  /** Whether some reward is a mission failure. */
  function HasFailureReward(rewards: seq<Reward>): (r: bool)
    ensures r <==> exists i :: 0 <= i < |rewards| && rewards[i].kind == MissionFailure
  {
    if rewards == [] then false
    else rewards[0].kind == MissionFailure || HasFailureReward(rewards[1..])
  }

  /** `isFailureObjective`: only a mission-failure reward makes an objective a failure
      condition; its criteria play no part. */
  function IsFailureObjective(objective: MissionObjective): (r: bool)
    ensures r <==> exists i :: 0 <= i < |objective.rewards| && objective.rewards[i].kind == MissionFailure
  {
    HasFailureReward(objective.rewards)
  }

  /** The criteria never decide the classification. */
  lemma FailureIgnoresCriteria(objective: MissionObjective, criteria: seq<Criterion>)
    ensures IsFailureObjective(MissionObjective(criteria, objective.rewards)) == IsFailureObjective(objective)
  {
  }

  // ---------------------------------------------------------------------------
  // Squaddies of given affiliations, in map order
  // ---------------------------------------------------------------------------

  /** Whether the occupant of an occupied tile belongs to one of the affiliations. */
  predicate Matches(t: Tile, info: SquaddieRef -> SquaddieInfo, affiliations: seq<Affiliation>)
    requires Occupied(t)
  {
    info(t.squaddie.value).affiliation in affiliations
  }

  /** The ids of the occupants of `ts` that belong to one of the affiliations, in order. */
  function MatchingIds(ts: seq<Tile>, info: SquaddieRef -> SquaddieInfo, affiliations: seq<Affiliation>): (ids: seq<string>)
    requires forall i :: 0 <= i < |ts| ==> Occupied(ts[i])
    ensures |ids| <= |ts|
  {
    if ts == [] then []
    else
      var t := ts[|ts| - 1];
      MatchingIds(ts[..|ts| - 1], info, affiliations) + (if Matches(t, info, affiliations) then [SquaddieKey(t)] else [])
  }

  /** An id is listed exactly when some tile of the run holds a squaddie of that id whose
      affiliation is one of those asked for. */
  lemma {:induction false} MatchingIdsMembers(ts: seq<Tile>, info: SquaddieRef -> SquaddieInfo, affiliations: seq<Affiliation>, id: string)
    requires forall i :: 0 <= i < |ts| ==> Occupied(ts[i])
    ensures id in MatchingIds(ts, info, affiliations)
            <==> exists i :: 0 <= i < |ts| && SquaddieKey(ts[i]) == id && Matches(ts[i], info, affiliations)
    decreases |ts|
  {
    if ts != [] {
      var n := |ts| - 1;
      var init, t := ts[..n], ts[n];
      MatchingIdsMembers(init, info, affiliations, id);
      assert ts == init + [t];
      MatchingIdsSnoc(init, t, info, affiliations);
      if id in MatchingIds(ts, info, affiliations) {
        if id in MatchingIds(init, info, affiliations) {
          var i :| 0 <= i < n && SquaddieKey(init[i]) == id && Matches(init[i], info, affiliations);
          assert ts[i] == init[i];
        } else {
          assert SquaddieKey(ts[n]) == id && Matches(ts[n], info, affiliations);
        }
      }
      if exists i :: 0 <= i < |ts| && SquaddieKey(ts[i]) == id && Matches(ts[i], info, affiliations) {
        var i :| 0 <= i < |ts| && SquaddieKey(ts[i]) == id && Matches(ts[i], info, affiliations);
        if i < n {
          assert init[i] == ts[i];
        }
      }
    }
  }

  /** When every occupant matches, the whole scan is listed. */
  lemma {:induction false} MatchingIdsAll(ts: seq<Tile>, info: SquaddieRef -> SquaddieInfo, affiliations: seq<Affiliation>)
    requires forall i :: 0 <= i < |ts| ==> Occupied(ts[i]) && Matches(ts[i], info, affiliations)
    ensures MatchingIds(ts, info, affiliations) == Keys(ts)
    decreases |ts|
  {
    if ts != [] {
      MatchingIdsAll(ts[..|ts| - 1], info, affiliations);
    }
  }

  /** One more tile extends the list by its occupant when that occupant matches. */
  lemma MatchingIdsSnoc(ts: seq<Tile>, t: Tile, info: SquaddieRef -> SquaddieInfo, affiliations: seq<Affiliation>)
    requires forall i :: 0 <= i < |ts| ==> Occupied(ts[i])
    requires Occupied(t)
    ensures MatchingIds(ts + [t], info, affiliations)
            == MatchingIds(ts, info, affiliations) + (if Matches(t, info, affiliations) then [SquaddieKey(t)] else [])
  {
    assert (ts + [t])[..|ts|] == ts;
  }

  /** What `findSquaddieNamesByAffiliation` returns: the ids of the map's matching occupants,
      in row-major order. */
  function MatchingNames(engine: Snapshot, affiliations: seq<Affiliation>): seq<string> {
    MatchingIds(OccupiedTiles(engine.overview.tiles), engine.info, affiliations)
  }

  /** A squaddie is listed exactly when it stands on the map and has one of the affiliations. */
  lemma MatchingNamesMembers(engine: Snapshot, affiliations: seq<Affiliation>, id: string)
    ensures id in MatchingNames(engine, affiliations)
            <==> exists r, t :: 0 <= r < |engine.overview.tiles| && t in engine.overview.tiles[r]
                   && Occupied(t) && SquaddieKey(t) == id && Matches(t, engine.info, affiliations)
  {
    var tiles := engine.overview.tiles;
    var ts := OccupiedTiles(tiles);
    MatchingIdsMembers(ts, engine.info, affiliations, id);
    OccupiedTilesMembers(tiles);
    if id in MatchingNames(engine, affiliations) {
      var i :| 0 <= i < |ts| && SquaddieKey(ts[i]) == id && Matches(ts[i], engine.info, affiliations);
      assert ts[i] in ts;
    }
    if exists r, t :: 0 <= r < |tiles| && t in tiles[r] && Occupied(t) && SquaddieKey(t) == id && Matches(t, engine.info, affiliations) {
      var r, t :| 0 <= r < |tiles| && t in tiles[r] && Occupied(t) && SquaddieKey(t) == id && Matches(t, engine.info, affiliations);
      assert t in ts;
      var i :| 0 <= i < |ts| && ts[i] == t;
    }
  }

  /** The matching ids among the first `r` rows and the first `c` tiles of row `r`. */
  function MatchingUpTo(engine: Snapshot, affiliations: seq<Affiliation>, r: nat, c: nat): seq<string>
    requires r < |engine.overview.tiles| && c <= |engine.overview.tiles[r]|
  {
    var tiles := engine.overview.tiles;
    MatchingIds(OccupiedTiles(tiles[..r]) + RowOccupied(tiles[r][..c]), engine.info, affiliations)
  }

  lemma MatchingRowStart(engine: Snapshot, affiliations: seq<Affiliation>, r: nat)
    requires r < |engine.overview.tiles|
    ensures MatchingUpTo(engine, affiliations, r, 0) == MatchingIds(OccupiedTiles(engine.overview.tiles[..r]), engine.info, affiliations)
  {
    var tiles := engine.overview.tiles;
    assert tiles[r][..0] == [];
    assert OccupiedTiles(tiles[..r]) + RowOccupied(tiles[r][..0]) == OccupiedTiles(tiles[..r]);
  }

  lemma MatchingStep(engine: Snapshot, affiliations: seq<Affiliation>, r: nat, c: nat)
    requires r < |engine.overview.tiles| && c < |engine.overview.tiles[r]|
    ensures var t := engine.overview.tiles[r][c];
            MatchingUpTo(engine, affiliations, r, c + 1)
            == MatchingUpTo(engine, affiliations, r, c)
               + (if Occupied(t) && Matches(t, engine.info, affiliations) then [SquaddieKey(t)] else [])
  {
    var tiles := engine.overview.tiles;
    var t := tiles[r][c];
    var before := OccupiedTiles(tiles[..r]) + RowOccupied(tiles[r][..c]);
    ScanStep(tiles, r, c);
    if Occupied(t) {
      MatchingIdsSnoc(before, t, engine.info, affiliations);
    } else {
      assert before + [] == before;
    }
  }

  lemma MatchingRowDone(engine: Snapshot, affiliations: seq<Affiliation>, r: nat)
    requires r < |engine.overview.tiles|
    ensures MatchingUpTo(engine, affiliations, r, |engine.overview.tiles[r]|)
            == MatchingIds(OccupiedTiles(engine.overview.tiles[..r + 1]), engine.info, affiliations)
  {
    ScanRowDone(engine.overview.tiles, r);
  }

  method FindSquaddieNamesByAffiliation(engine: Snapshot, affiliations: seq<Affiliation>) returns (matchingNames: seq<string>)
    ensures matchingNames == MatchingNames(engine, affiliations)
  {
    var overview := engine.overview;
    matchingNames := [];
    var r := 0;
    while r < |overview.tiles|
      invariant 0 <= r <= |overview.tiles|
      invariant matchingNames == MatchingIds(OccupiedTiles(overview.tiles[..r]), engine.info, affiliations)
    {
      var row := overview.tiles[r];
      var c := 0;
      MatchingRowStart(engine, affiliations, r);
      while c < |row|
        invariant 0 <= c <= |row|
        invariant matchingNames == MatchingUpTo(engine, affiliations, r, c)
      {
        var tile := row[c];
        MatchingStep(engine, affiliations, r, c);
        if tile.squaddie.Some? {
          var info := engine.info(tile.squaddie.value);
          if info.affiliation in affiliations {
            matchingNames := matchingNames + [tile.squaddie.value.outOfBattleId];
          }
        }
        c := c + 1;
      }
      MatchingRowDone(engine, affiliations, r);
      r := r + 1;
    }
    assert overview.tiles[..|overview.tiles|] == overview.tiles;
  }

  // ---------------------------------------------------------------------------
  // Descriptions
  // ---------------------------------------------------------------------------

  /** `buildCriteriaDescription`: the first affiliation's word and the matching squaddies;
      failing that, the listed ids; failing that, a generic phrase. */
  function CriteriaDescription(engine: Snapshot, criteria: Criterion): string
    requires criteria.SquaddiesDefeated?
  {
    if criteria.affiliations.Some? && |criteria.affiliations.value| > 0 then
      var affiliations := criteria.affiliations.value;
      "Defeat " + AffiliationDisplayName(affiliations[0]) + ": " + Join(MatchingNames(engine, affiliations), ", ")
    else if criteria.squaddieIds.Some? && |criteria.squaddieIds.value| > 0 then
      "Defeat: " + Join(criteria.squaddieIds.value, ", ")
    else
      "Defeat squaddies"
  }

  method BuildCriteriaDescription(engine: Snapshot, criteria: Criterion) returns (description: string)
    requires criteria.SquaddiesDefeated?
    ensures description == CriteriaDescription(engine, criteria)
  {
    if criteria.affiliations.Some? && |criteria.affiliations.value| > 0 {
      var firstAffiliation := criteria.affiliations.value[0];
      var displayName := AffiliationDisplayName(firstAffiliation);
      var squaddieNames := FindSquaddieNamesByAffiliation(engine, criteria.affiliations.value);
      return "Defeat " + displayName + ": " + Join(squaddieNames, ", ");
    }
    if criteria.squaddieIds.Some? && |criteria.squaddieIds.value| > 0 {
      var names := criteria.squaddieIds.value;
      return "Defeat: " + Join(names, ", ");
    }
    return "Defeat squaddies";
  }

  /** Every description starts with "Defeat" and so is never empty. */
  lemma CriteriaDescriptionStartsDefeat(engine: Snapshot, criteria: Criterion)
    requires criteria.SquaddiesDefeated?
    ensures |CriteriaDescription(engine, criteria)| >= 6 && CriteriaDescription(engine, criteria)[..6] == "Defeat"
  {
    var d := CriteriaDescription(engine, criteria);
    if criteria.affiliations.Some? && |criteria.affiliations.value| > 0 {
      var rest := AffiliationDisplayName(criteria.affiliations.value[0]) + ": "
        + Join(MatchingNames(engine, criteria.affiliations.value), ", ");
      assert d == "Defeat " + rest;
    } else if criteria.squaddieIds.Some? && |criteria.squaddieIds.value| > 0 {
      assert d == "Defeat: " + Join(criteria.squaddieIds.value, ", ");
    }
  }

  /** Affiliations take precedence: when there are any, the listed ids play no part. */
  lemma AffiliationsTakePrecedence(engine: Snapshot, affiliations: seq<Affiliation>, ids1: Option<seq<string>>, ids2: Option<seq<string>>)
    requires |affiliations| > 0
    ensures CriteriaDescription(engine, SquaddiesDefeated(Some(affiliations), ids1))
         == CriteriaDescription(engine, SquaddiesDefeated(Some(affiliations), ids2))
  {
  }

  /** The description of each "squaddies defeated" criterion, in order; others are skipped. */
  function Descriptions(engine: Snapshot, criteria: seq<Criterion>): (ds: seq<string>)
    ensures |ds| <= |criteria|
  {
    if criteria == [] then []
    else
      var c := criteria[|criteria| - 1];
      Descriptions(engine, criteria[..|criteria| - 1])
        + (if c.SquaddiesDefeated? then [CriteriaDescription(engine, c)] else [])
  }

  /** Every collected description is non-empty, and there is one exactly when some criterion
      is a "squaddies defeated" one. */
  lemma {:induction false} DescriptionsProps(engine: Snapshot, criteria: seq<Criterion>)
    ensures forall i :: 0 <= i < |Descriptions(engine, criteria)| ==> |Descriptions(engine, criteria)[i]| > 0
    ensures Descriptions(engine, criteria) == [] <==> forall i :: 0 <= i < |criteria| ==> !criteria[i].SquaddiesDefeated?
    decreases |criteria|
  {
    if criteria != [] {
      var n := |criteria| - 1;
      var init := criteria[..n];
      DescriptionsProps(engine, init);
      var c := criteria[n];
      if c.SquaddiesDefeated? {
        CriteriaDescriptionStartsDefeat(engine, c);
      } else {
        assert forall i :: 0 <= i < n ==> init[i] == criteria[i];
      }
    }
  }

  /** `objectiveToEntry`. */
  function ObjectiveEntry(engine: Snapshot, objective: MissionObjective, isCompleted: bool): MissionObjectiveDisplayEntry {
    MissionObjectiveDisplayEntry(Join(Descriptions(engine, objective.criteria), "; "), isCompleted, IsFailureObjective(objective))
  }

  method ObjectiveToEntry(engine: Snapshot, objective: MissionObjective, isCompleted: bool) returns (entry: MissionObjectiveDisplayEntry)
    ensures entry == ObjectiveEntry(engine, objective, isCompleted)
  {
    var criteria := objective.criteria;
    var descriptions := [];
    var i := 0;
    while i < |criteria|
      invariant 0 <= i <= |criteria|
      invariant descriptions == Descriptions(engine, criteria[..i])
    {
      var criterion := criteria[i];
      assert criteria[..i + 1][..i] == criteria[..i];
      if criterion.SquaddiesDefeated? {
        var description := BuildCriteriaDescription(engine, criterion);
        descriptions := descriptions + [description];
      } else {
        assert descriptions + [] == descriptions;
      }
      i := i + 1;
    }
    assert criteria[..i] == criteria;
    entry := MissionObjectiveDisplayEntry(Join(descriptions, "; "), isCompleted, IsFailureObjective(objective));
  }

  /** Joining non-empty parts gives the empty text only when there are no parts. */
  lemma {:induction false} JoinEmpty(parts: seq<string>, sep: string)
    requires forall i :: 0 <= i < |parts| ==> |parts[i]| > 0
    ensures Join(parts, sep) == "" <==> parts == []
    decreases |parts|
  {
    if |parts| > 1 {
      assert |Join(parts, sep)| >= |parts[|parts| - 1]|;
    }
  }

  /** An entry's description is empty exactly when the objective has no "squaddies
      defeated" criterion. */
  lemma EntryDescriptionEmpty(engine: Snapshot, objective: MissionObjective, isCompleted: bool)
    ensures ObjectiveEntry(engine, objective, isCompleted).description == ""
            <==> forall i :: 0 <= i < |objective.criteria| ==> !objective.criteria[i].SquaddiesDefeated?
  {
    DescriptionsProps(engine, objective.criteria);
    JoinEmpty(Descriptions(engine, objective.criteria), "; ");
  }

  // ---------------------------------------------------------------------------
  // Gathering
  // ---------------------------------------------------------------------------

  /** One entry per objective, in order, all with the same completion flag. */
  function EntriesOf(engine: Snapshot, objectives: seq<MissionObjective>, isCompleted: bool): (entries: seq<MissionObjectiveDisplayEntry>)
    ensures |entries| == |objectives|
    ensures forall i :: 0 <= i < |objectives| ==> entries[i] == ObjectiveEntry(engine, objectives[i], isCompleted)
  {
    if objectives == [] then []
    else EntriesOf(engine, objectives[..|objectives| - 1], isCompleted) + [ObjectiveEntry(engine, objectives[|objectives| - 1], isCompleted)]
  }

  /** What `gatherEntries` returns: the in-progress objectives as incomplete entries, then the
      completed-but-not-rewarded and the completed-and-rewarded ones as completed entries. */
  function GatheredEntries(engine: Snapshot): seq<MissionObjectiveDisplayEntry> {
    EntriesOf(engine, engine.inProgress, false)
      + EntriesOf(engine, engine.completedNotRewarded, true)
      + EntriesOf(engine, engine.completedAndRewarded, true)
  }

  /** Appends one entry per objective, in order. */
  method AppendEntries(engine: Snapshot, entries: seq<MissionObjectiveDisplayEntry>, objectives: seq<MissionObjective>, isCompleted: bool)
    returns (result: seq<MissionObjectiveDisplayEntry>)
    ensures result == entries + EntriesOf(engine, objectives, isCompleted)
  {
    result := entries;
    var i := 0;
    while i < |objectives|
      invariant 0 <= i <= |objectives|
      invariant result == entries + EntriesOf(engine, objectives[..i], isCompleted)
    {
      var objective := objectives[i];
      assert objectives[..i + 1][..i] == objectives[..i];
      var entry := ObjectiveToEntry(engine, objective, isCompleted);
      SnocRegroup(entries, EntriesOf(engine, objectives[..i], isCompleted), entry);
      result := result + [entry];
      i := i + 1;
    }
    assert objectives[..i] == objectives;
  }

  method GatherEntries(engine: Snapshot) returns (entries: seq<MissionObjectiveDisplayEntry>)
    ensures entries == GatheredEntries(engine)
  {
    entries := [];
    entries := AppendEntries(engine, entries, engine.inProgress, false);
    entries := AppendEntries(engine, entries, engine.completedNotRewarded, true);
    entries := AppendEntries(engine, entries, engine.completedAndRewarded, true);
  }

  /** The gathered entries: one per objective of the three lists, and exactly those past the
      in-progress ones are marked completed. */
  lemma GatheredEntriesCompletion(engine: Snapshot)
    ensures var entries := GatheredEntries(engine);
            && |entries| == |engine.inProgress| + |engine.completedNotRewarded| + |engine.completedAndRewarded|
            && forall i :: 0 <= i < |entries| ==> (entries[i].isCompleted <==> i >= |engine.inProgress|)
  {
    var a := EntriesOf(engine, engine.inProgress, false);
    var b := EntriesOf(engine, engine.completedNotRewarded, true);
    var c := EntriesOf(engine, engine.completedAndRewarded, true);
    var entries := a + b + c;
    forall i | 0 <= i < |entries| ensures entries[i].isCompleted <==> i >= |a| {
      if i < |a| {
        assert entries[i] == a[i];
      } else if i < |a| + |b| {
        assert entries[i] == b[i - |a|];
      } else {
        assert entries[i] == c[i - |a| - |b|];
      }
    }
  }

  // ---------------------------------------------------------------------------
  // Partition and sort
  // ---------------------------------------------------------------------------

  /** The two flags entries are partitioned and sorted by. */
  datatype EntryFlag = Completed | Failure

  function Flag(entry: MissionObjectiveDisplayEntry, flag: EntryFlag): bool {
    match flag
    case Completed => entry.isCompleted
    case Failure => entry.isFailureCondition
  }

  /** The entries whose flag has the given value, in their original order (`filter`). */
  function Having(entries: seq<MissionObjectiveDisplayEntry>, flag: EntryFlag, value: bool): (r: seq<MissionObjectiveDisplayEntry>)
    ensures |r| <= |entries|
  {
    if entries == [] then []
    else
      var e := entries[|entries| - 1];
      Having(entries[..|entries| - 1], flag, value) + (if Flag(e, flag) == value then [e] else [])
  }

  /** An entry survives the filter exactly when it is present and its flag has the value. */
  lemma {:induction false} HavingMembers(entries: seq<MissionObjectiveDisplayEntry>, flag: EntryFlag, value: bool, e: MissionObjectiveDisplayEntry)
    ensures e in Having(entries, flag, value) <==> e in entries && Flag(e, flag) == value
    decreases |entries|
  {
    if entries != [] {
      var n := |entries| - 1;
      HavingMembers(entries[..n], flag, value, e);
      assert entries == entries[..n] + [entries[n]];
    }
  }

  /** Every entry the filter keeps has the flag value. */
  lemma HavingFlags(entries: seq<MissionObjectiveDisplayEntry>, flag: EntryFlag, value: bool)
    ensures forall i :: 0 <= i < |Having(entries, flag, value)| ==> Flag(Having(entries, flag, value)[i], flag) == value
  {
    var r := Having(entries, flag, value);
    forall i | 0 <= i < |r| ensures Flag(r[i], flag) == value {
      HavingMembers(entries, flag, value, r[i]);
    }
  }

  /** Filtering distributes over concatenation. */
  lemma {:induction false} HavingAppend(a: seq<MissionObjectiveDisplayEntry>, b: seq<MissionObjectiveDisplayEntry>, flag: EntryFlag, value: bool)
    ensures Having(a + b, flag, value) == Having(a, flag, value) + Having(b, flag, value)
    decreases |b|
  {
    if b == [] {
      assert a + b == a;
    } else {
      var n := |b| - 1;
      assert (a + b)[..|a + b| - 1] == a + b[..n];
      HavingAppend(a, b[..n], flag, value);
    }
  }

  /** Filtering one more entry appends it exactly when its flag has the value. */
  lemma HavingSnoc(init: seq<MissionObjectiveDisplayEntry>, e: MissionObjectiveDisplayEntry, flag: EntryFlag, value: bool)
    ensures Having(init + [e], flag, value) == Having(init, flag, value) + (if Flag(e, flag) == value then [e] else [])
  {
    assert (init + [e])[..|init|] == init;
  }

  /** A run whose entries all have the flag value filters to itself, and to nothing for the
      other value. */
  lemma HavingUniform(entries: seq<MissionObjectiveDisplayEntry>, flag: EntryFlag, value: bool)
    requires forall i :: 0 <= i < |entries| ==> Flag(entries[i], flag) == value
    ensures Having(entries, flag, value) == entries
    ensures Having(entries, flag, !value) == []
  {
    HavingUniformKept(entries, flag, value);
    HavingUniformDropped(entries, flag, value);
  }

  lemma {:induction false} HavingUniformKept(entries: seq<MissionObjectiveDisplayEntry>, flag: EntryFlag, value: bool)
    requires forall i :: 0 <= i < |entries| ==> Flag(entries[i], flag) == value
    ensures Having(entries, flag, value) == entries
    decreases |entries|
  {
    if entries != [] {
      var n := |entries| - 1;
      var init, e := entries[..n], entries[n];
      assert forall i :: 0 <= i < |init| ==> Flag(init[i], flag) == value by {
        forall i | 0 <= i < |init| ensures Flag(init[i], flag) == value {
          assert init[i] == entries[i];
        }
      }
      HavingUniformKept(init, flag, value);
      assert entries == init + [e];
      HavingSnoc(init, e, flag, value);
    }
  }

  lemma {:induction false} HavingUniformDropped(entries: seq<MissionObjectiveDisplayEntry>, flag: EntryFlag, value: bool)
    requires forall i :: 0 <= i < |entries| ==> Flag(entries[i], flag) == value
    ensures Having(entries, flag, !value) == []
    decreases |entries|
  {
    if entries != [] {
      var n := |entries| - 1;
      var init, e := entries[..n], entries[n];
      assert forall i :: 0 <= i < |init| ==> Flag(init[i], flag) == value by {
        forall i | 0 <= i < |init| ensures Flag(init[i], flag) == value {
          assert init[i] == entries[i];
        }
      }
      HavingUniformDropped(init, flag, value);
      assert entries == init + [e];
      HavingSnoc(init, e, flag, !value);
    }
  }

  /** The two filters of a flag split the entries: together they hold every entry as often
      as the entries do. */
  lemma {:induction false} HavingSplits(entries: seq<MissionObjectiveDisplayEntry>, flag: EntryFlag)
    ensures multiset(Having(entries, flag, true)) + multiset(Having(entries, flag, false)) == multiset(entries)
    decreases |entries|
  {
    if entries != [] {
      var n := |entries| - 1;
      var init, e := entries[..n], entries[n];
      HavingSplits(init, flag);
      var t, f := Having(init, flag, true), Having(init, flag, false);
      assert multiset(entries) == multiset(init) + multiset{e} by {
        assert entries == init + [e];
      }
      if Flag(e, flag) {
        assert Having(entries, flag, true) == t + [e] && Having(entries, flag, false) == f by {
          assert entries == init + [e];
          HavingSnoc(init, e, flag, true);
          HavingSnoc(init, e, flag, false);
        }
        assert multiset(t + [e]) == multiset(t) + multiset{e};
      } else {
        assert Having(entries, flag, true) == t && Having(entries, flag, false) == f + [e] by {
          assert entries == init + [e];
          HavingSnoc(init, e, flag, true);
          HavingSnoc(init, e, flag, false);
        }
        assert multiset(f + [e]) == multiset(f) + multiset{e};
      }
    }
  }

  /** `sortEntries`: a stable sort that puts completed entries first; a permutation: the same
      entries, each as often. */
  function SortEntries(entries: seq<MissionObjectiveDisplayEntry>): (sorted: seq<MissionObjectiveDisplayEntry>)
    ensures multiset(sorted) == multiset(entries)
  {
    HavingSplits(entries, Completed);
    Having(entries, Completed, true) + Having(entries, Completed, false)
  }

  /** Sorted: no incomplete entry comes before a completed one. */
  lemma SortEntriesOrdered(entries: seq<MissionObjectiveDisplayEntry>)
    ensures var s := SortEntries(entries);
            forall i, j :: 0 <= i < j < |s| && !s[i].isCompleted ==> !s[j].isCompleted
  {
    var done := Having(entries, Completed, true);
    var open := Having(entries, Completed, false);
    var s := done + open;
    HavingFlags(entries, Completed, true);
    HavingFlags(entries, Completed, false);
    assert forall k :: 0 <= k < |s| ==> (s[k].isCompleted <==> k < |done|) by {
      forall k | 0 <= k < |s| ensures s[k].isCompleted <==> k < |done| {
        if k < |done| {
          assert s[k] == done[k];
        } else {
          assert s[k] == open[k - |done|];
        }
      }
    }
  }

  /** Stable: completed entries keep their relative order, and so do incomplete ones. */
  lemma SortEntriesStable(entries: seq<MissionObjectiveDisplayEntry>)
    ensures Having(SortEntries(entries), Completed, true) == Having(entries, Completed, true)
    ensures Having(SortEntries(entries), Completed, false) == Having(entries, Completed, false)
  {
    var done := Having(entries, Completed, true);
    var open := Having(entries, Completed, false);
    HavingAppend(done, open, Completed, true);
    HavingAppend(done, open, Completed, false);
    HavingFlags(entries, Completed, true);
    HavingFlags(entries, Completed, false);
    HavingUniform(done, Completed, true);
    HavingUniform(open, Completed, false);
    assert Having(done, Completed, true) + Having(open, Completed, true) == done + [];
    assert Having(done, Completed, false) + Having(open, Completed, false) == [] + open;
  }

  // ---------------------------------------------------------------------------
  // Formatting
  // ---------------------------------------------------------------------------

  /** `formatEntryLine`: the description after a dash, marked when completed. The line carries
      its description after the dash, and is seven characters longer exactly when the entry is
      completed, those characters being the marker. */
  function FormatEntryLine(entry: MissionObjectiveDisplayEntry): (line: string)
    ensures var n := |entry.description| + 2;
            && |line| == n + (if entry.isCompleted then 7 else 0)
            && line[..n] == "- " + entry.description
            && (entry.isCompleted ==> line[n..] == " [DONE]")
  {
    var head := "- " + entry.description;
    var marker := if entry.isCompleted then " [DONE]" else "";
    assert (head + marker)[..|head|] == head;
    assert (head + marker)[|head|..] == marker;
    head + marker
  }

  /** One line per entry, in order. */
  function EntryLines(entries: seq<MissionObjectiveDisplayEntry>): (lines: seq<string>)
    ensures |lines| == |entries|
    ensures forall i :: 0 <= i < |entries| ==> lines[i] == FormatEntryLine(entries[i])
  {
    if entries == [] then [] else EntryLines(entries[..|entries| - 1]) + [FormatEntryLine(entries[|entries| - 1])]
  }

  lemma EntryLinesStep(entries: seq<MissionObjectiveDisplayEntry>, i: nat)
    requires i < |entries|
    ensures EntryLines(entries[..i + 1]) == EntryLines(entries[..i]) + [FormatEntryLine(entries[i])]
  {
    assert entries[..i + 1][..i] == entries[..i];
  }

  /** A section: nothing when it has no entries, else its heading and its sorted entries. */
  function Section(heading: string, entries: seq<MissionObjectiveDisplayEntry>): seq<string> {
    if |entries| == 0 then [] else [heading] + EntryLines(SortEntries(entries))
  }

  /** What `formatEntries` joins: the success objectives' section, then the failures'. */
  function ObjectiveLines(entries: seq<MissionObjectiveDisplayEntry>): seq<string> {
    Section("Objective:", Having(entries, Failure, false)) + Section("Failure:", Having(entries, Failure, true))
  }

  /** Appends a heading and one line per entry of an already sorted section. */
  method AppendSection(lines: seq<string>, heading: string, sorted: seq<MissionObjectiveDisplayEntry>) returns (result: seq<string>)
    ensures result == lines + ([heading] + EntryLines(sorted))
  {
    result := lines + [heading];
    var top := result;
    var i := 0;
    while i < |sorted|
      invariant 0 <= i <= |sorted|
      invariant result == top + EntryLines(sorted[..i])
    {
      EntryLinesStep(sorted, i);
      SnocRegroup(top, EntryLines(sorted[..i]), FormatEntryLine(sorted[i]));
      result := result + [FormatEntryLine(sorted[i])];
      i := i + 1;
    }
    assert sorted[..i] == sorted;
    RegroupLines(lines, [heading], EntryLines(sorted));
  }

  method FormatEntries(entries: seq<MissionObjectiveDisplayEntry>) returns (text: string)
    ensures text == JoinLines(ObjectiveLines(entries))
  {
    if |entries| == 0 {
      return "";
    }
    var objectives := Having(entries, Failure, false);
    var failures := Having(entries, Failure, true);
    var lines := [];
    if |objectives| > 0 {
      var sorted := SortEntries(objectives);
      lines := AppendSection(lines, "Objective:", sorted);
    }
    assert lines == Section("Objective:", objectives) by {
      if |objectives| > 0 {
        assert [] + Section("Objective:", objectives) == Section("Objective:", objectives);
      }
    }
    var head := lines;
    if |failures| > 0 {
      var sorted := SortEntries(failures);
      lines := AppendSection(lines, "Failure:", sorted);
    } else {
      assert head + Section("Failure:", failures) == head;
    }
    assert lines == ObjectiveLines(entries);
    text := Join(lines, "\n");
  }

  /** Every entry is either a success objective or a failure condition. */
  lemma PartitionCount(entries: seq<MissionObjectiveDisplayEntry>)
    ensures |Having(entries, Failure, false)| + |Having(entries, Failure, true)| == |entries|
  {
    HavingSplits(entries, Failure);
    assert |multiset(Having(entries, Failure, true))| + |multiset(Having(entries, Failure, false))| == |multiset(entries)|;
  }

  /** A part of the partition is non-empty exactly when some entry belongs to it. */
  lemma PartPresent(entries: seq<MissionObjectiveDisplayEntry>, failure: bool)
    ensures |Having(entries, Failure, failure)| > 0
            <==> exists i :: 0 <= i < |entries| && entries[i].isFailureCondition == failure
  {
    var part := Having(entries, Failure, failure);
    if exists i :: 0 <= i < |entries| && entries[i].isFailureCondition == failure {
      var i :| 0 <= i < |entries| && entries[i].isFailureCondition == failure;
      HavingMembers(entries, Failure, failure, entries[i]);
    }
    if |part| > 0 {
      HavingMembers(entries, Failure, failure, part[0]);
      var i :| 0 <= i < |entries| && entries[i] == part[0];
    }
  }

  /** The sections: "Objective:" comes first and exactly when some entry is not a failure
      condition; "Failure:" follows exactly when some entry is; there is one line per entry
      besides the headings. */
  lemma ObjectiveLinesLayout(entries: seq<MissionObjectiveDisplayEntry>)
    ensures var lines := ObjectiveLines(entries);
            var o := |Having(entries, Failure, false)|;
            var f := |Having(entries, Failure, true)|;
            var failureStart := if o == 0 then 0 else 1 + o;
            && (o > 0 <==> exists i :: 0 <= i < |entries| && !entries[i].isFailureCondition)
            && (f > 0 <==> exists i :: 0 <= i < |entries| && entries[i].isFailureCondition)
            && o + f == |entries|
            && |lines| == failureStart + (if f == 0 then 0 else 1 + f)
            && (o > 0 ==> lines[0] == "Objective:")
            && (f > 0 ==> lines[failureStart] == "Failure:")
  {
    PartPresent(entries, false);
    PartPresent(entries, true);
    PartitionCount(entries);
    var objectives := Having(entries, Failure, false);
    var failures := Having(entries, Failure, true);
    SectionLength("Objective:", objectives);
    SectionLength("Failure:", failures);
  }

  /** A section has a heading and one line per entry, or nothing at all. */
  lemma SectionLength(heading: string, part: seq<MissionObjectiveDisplayEntry>)
    ensures |Section(heading, part)| == if |part| == 0 then 0 else 1 + |part|
    ensures |part| > 0 ==> Section(heading, part)[0] == heading
  {
    if |part| > 0 {
      HavingSplits(part, Completed);
      var s := SortEntries(part);
      assert |multiset(s)| == |multiset(part)|;
    }
  }

  /** The rendering is empty exactly when there are no entries. */
  lemma FormatEntriesEmpty(entries: seq<MissionObjectiveDisplayEntry>)
    ensures JoinLines(ObjectiveLines(entries)) == "" <==> |entries| == 0
  {
    var lines := ObjectiveLines(entries);
    if |entries| > 0 {
      assert |lines| > 0 && |lines[0]| > 0 by {
        ObjectiveLinesLayout(entries);
      }
      assert |JoinLines(lines)| >= |lines[0]| by {
        JoinHead(lines, "\n");
      }
    }
  }

  /** Each section lists its entries completed first, as a permutation of them. */
  lemma SectionEntriesSorted(entries: seq<MissionObjectiveDisplayEntry>, failure: bool)
    ensures var part := Having(entries, Failure, failure);
            var s := SortEntries(part);
            && multiset(s) == multiset(part)
            && (forall i, j :: 0 <= i < j < |s| && !s[i].isCompleted ==> !s[j].isCompleted)
            && (forall i :: 0 <= i < |s| ==> s[i].isFailureCondition == failure)
  {
    var part := Having(entries, Failure, failure);
    SortEntriesOrdered(part);
    var s := SortEntries(part);
    forall i | 0 <= i < |s| ensures s[i].isFailureCondition == failure {
      assert s[i] in multiset(s);
      assert s[i] in part;
      HavingMembers(entries, Failure, failure, s[i]);
    }
  }

  // ---------------------------------------------------------------------------
  // Reading the rendered listing back
  // ---------------------------------------------------------------------------

  lemma EntryWordsOneLine()
    ensures '\n' !in "- " && '\n' !in " [DONE]" && '\n' !in "" && '\n' !in "Objective:" && '\n' !in "Failure:"
  {
  }

  /** An entry line is one line when its description is. */
  lemma FormatEntryLineOneLine(entry: MissionObjectiveDisplayEntry)
    requires '\n' !in entry.description
    ensures '\n' !in FormatEntryLine(entry)
  {
    var marker := if entry.isCompleted then " [DONE]" else "";
    EntryWordsOneLine();
    InConcat('\n', "- ", entry.description);
    InConcat('\n', "- " + entry.description, marker);
  }

  /** A part of the partition keeps descriptions free of line feeds. */
  lemma PartOneLine(entries: seq<MissionObjectiveDisplayEntry>, failure: bool)
    requires forall i :: 0 <= i < |entries| ==> '\n' !in entries[i].description
    ensures forall i :: 0 <= i < |Having(entries, Failure, failure)| ==>
              '\n' !in Having(entries, Failure, failure)[i].description
  {
    var part := Having(entries, Failure, failure);
    forall i | 0 <= i < |part| ensures '\n' !in part[i].description {
      assert part[i] in part;
      HavingMembers(entries, Failure, failure, part[i]);
      var j :| 0 <= j < |entries| && entries[j] == part[i];
    }
  }

  /** A section is made of single lines when its heading and descriptions are. */
  lemma SectionOneLine(heading: string, part: seq<MissionObjectiveDisplayEntry>)
    requires '\n' !in heading
    requires forall i :: 0 <= i < |part| ==> '\n' !in part[i].description
    ensures NoNewline(Section(heading, part))
  {
    if |part| > 0 {
      var s := SortEntries(part);
      var lines := EntryLines(s);
      forall i | 0 <= i < |lines| ensures '\n' !in lines[i] {
        assert s[i] in multiset(part) by {
          assert s[i] in multiset(s);
        }
        var j :| 0 <= j < |part| && part[j] == s[i];
        FormatEntryLineOneLine(s[i]);
      }
      NoNewlineAppend([heading], lines);
    }
  }

  /** Read back line by line, a non-empty listing is exactly its sections' lines (laid out as
      `ObjectiveLinesLayout` states) whenever no description holds a line feed. */
  lemma ObjectiveTextLines(entries: seq<MissionObjectiveDisplayEntry>)
    requires forall i :: 0 <= i < |entries| ==> '\n' !in entries[i].description
    ensures |entries| > 0 ==> Lines(JoinLines(ObjectiveLines(entries))) == ObjectiveLines(entries)
  {
    var objectives := Having(entries, Failure, false);
    var failures := Having(entries, Failure, true);
    EntryWordsOneLine();
    PartOneLine(entries, false);
    PartOneLine(entries, true);
    SectionOneLine("Objective:", objectives);
    SectionOneLine("Failure:", failures);
    NoNewlineAppend(Section("Objective:", objectives), Section("Failure:", failures));
    if |entries| > 0 {
      PartitionCount(entries);
      SectionLength("Objective:", objectives);
      LinesOfJoinLines(ObjectiveLines(entries));
    }
  }
}
