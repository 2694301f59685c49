/**
 * The controllable squaddie inspector: one entry per squaddie who can act this phase,
 * formatted as "  <name> <position> - AP: <current>/<maximum>" under a heading.
 */
module ControllableSquaddieInspector {
  import opened Wrappers
  import opened Text
  import opened Engine
  import CoordinateInspector

  datatype ControllableSquaddieEntry = ControllableSquaddieEntry(
    squaddieId: SquaddieRef,
    name: string,
    currentActionPoints: int,
    maximumActionPoints: int,
    coordinate: Option<MaybeOffMapCoord>)

  /** `formatCoordinate`: "(off map)" unless both the row and the column are known; either
      way the position is shown in parentheses. */
  function FormatCoordinate(coordinate: Option<MaybeOffMapCoord>): (position: string)
    ensures |position| >= 3 && position[0] == '(' && position[|position| - 1] == ')'
  {
    if coordinate.None? || coordinate.value.row.None? || coordinate.value.col.None? then "(off map)"
    else "(" + IntToString(coordinate.value.row.value) + "," + IntToString(coordinate.value.col.value) + ")"
  }

  /** The marker appears exactly when the row or the column is missing. */
  lemma OffMapIff(coordinate: Option<MaybeOffMapCoord>)
    ensures FormatCoordinate(coordinate) == "(off map)"
            <==> coordinate.None? || coordinate.value.row.None? || coordinate.value.col.None?
  {
    if !(coordinate.None? || coordinate.value.row.None? || coordinate.value.col.None?) {
      var r := IntToString(coordinate.value.row.value);
      var rest := "," + IntToString(coordinate.value.col.value) + ")";
      assert FormatCoordinate(coordinate) == "(" + (r + rest);
      ConcatIndex("(", r + rest, 1);
      ConcatIndex(r, rest, 0);
      assert "(off map)"[1] == 'o';
    }
  }

  /** A known position is shown in a form the coordinate parser reads back to the same tile. */
  lemma FormatCoordinateParsesBack(row: nat, col: nat)
    ensures CoordinateInspector.ParseCoordinate(FormatCoordinate(Some(MaybeOffMapCoord(Some(row), Some(col)))))
            == Some(Coord(row, col))
  {
    assert CoordinateInspector.AllSeparators(",") by {
      assert CoordinateInspector.IsSeparator(',');
    }
    CoordinateInspector.ParseRoundTrip(row, col, "(", ",", ")");
  }

  /** The off-map marker is not a coordinate. */
  lemma OffMapNotParsed()
    ensures CoordinateInspector.ParseCoordinate("(off map)").None?
  {
    CoordinateInspector.LetterRejected("(off map)", 1);
  }

  /** `formatEntry`: the indented name, then the position and the action points; the line
      starts with the indented name. */
  function FormatEntry(entry: ControllableSquaddieEntry): (line: string)
    ensures |line| > |entry.name| + 2 && line[..|entry.name| + 2] == "  " + entry.name
  {
    var head := "  " + entry.name;
    var tail := " " + FormatCoordinate(entry.coordinate) + " - AP: "
      + IntToString(entry.currentActionPoints) + "/" + IntToString(entry.maximumActionPoints);
    assert (head + tail)[..|head|] == head;
    head + tail
  }

  /** An entry line is one line when the name is. */
  lemma FormatEntryOneLine(entry: ControllableSquaddieEntry)
    requires '\n' !in entry.name
    ensures '\n' !in FormatEntry(entry)
  {
    var position := FormatCoordinate(entry.coordinate);
    var current, maximum := IntToString(entry.currentActionPoints), IntToString(entry.maximumActionPoints);
    EntryWordsOneLine();
    PositionOneLine(entry.coordinate);
    InConcat('\n', " ", position);
    InConcat('\n', " " + position, " - AP: ");
    InConcat('\n', " " + position + " - AP: ", current);
    InConcat('\n', " " + position + " - AP: " + current, "/");
    InConcat('\n', " " + position + " - AP: " + current + "/", maximum);
    InConcat('\n', "  ", entry.name);
    InConcat('\n', "  " + entry.name, " " + position + " - AP: " + current + "/" + maximum);
  }

  lemma EntryWordsOneLine()
    ensures '\n' !in "  " && '\n' !in " " && '\n' !in " - AP: " && '\n' !in "/"
  {
  }

  lemma PositionOneLine(coordinate: Option<MaybeOffMapCoord>)
    ensures '\n' !in FormatCoordinate(coordinate)
  {
    if !(coordinate.None? || coordinate.value.row.None? || coordinate.value.col.None?) {
      var r, c := IntToString(coordinate.value.row.value), IntToString(coordinate.value.col.value);
      assert '\n' !in "(" && '\n' !in "," && '\n' !in ")";
      InConcat('\n', "(", r);
      InConcat('\n', "(" + r, ",");
      InConcat('\n', "(" + r + ",", c);
      InConcat('\n', "(" + r + "," + c, ")");
    } else {
      assert '\n' !in "(off map)";
    }
  }

  /** `gatherEntries`: one entry per squaddie who can act, in the engine's order, carrying
      that squaddie's name, action points and position. */
  function GatherEntries(engine: Snapshot): (entries: seq<ControllableSquaddieEntry>)
    ensures |entries| == |engine.canAct|
    ensures forall i :: 0 <= i < |entries| ==>
              var id := engine.canAct[i];
              entries[i] == ControllableSquaddieEntry(id, engine.info(id).name,
                engine.info(id).currentActionPoints, engine.info(id).maximumActionPoints, engine.position(id))
  {
    seq(|engine.canAct|, i requires 0 <= i < |engine.canAct| =>
      var id := engine.canAct[i];
      var info := engine.info(id);
      ControllableSquaddieEntry(id, info.name, info.currentActionPoints, info.maximumActionPoints, engine.position(id)))
  }

  /** One line per entry, in order: the lines the loop of `formatEntries` pushes. */
  function EntryLines(entries: seq<ControllableSquaddieEntry>): (lines: seq<string>)
    ensures |lines| == |entries|
    ensures forall i :: 0 <= i < |entries| ==> lines[i] == FormatEntry(entries[i])
  {
    seq(|entries|, i requires 0 <= i < |entries| => FormatEntry(entries[i]))
  }

  lemma EntryLinesStep(entries: seq<ControllableSquaddieEntry>, i: nat)
    requires i < |entries|
    ensures EntryLines(entries[..i + 1]) == EntryLines(entries[..i]) + [FormatEntry(entries[i])]
  {
    assert entries[..i + 1][..i] == entries[..i];
  }

  /** The lines of the listing: a notice when nobody can act, else a heading and the entries. */
  function EntriesLines(entries: seq<ControllableSquaddieEntry>): seq<string> {
    if |entries| == 0 then ["No squaddies can act this phase."]
    else ["Squaddies who can act:"] + EntryLines(entries)
  }

  /** The loop of `formatEntries`: appends one line per entry. */
  method AppendEntryLines(lines: seq<string>, entries: seq<ControllableSquaddieEntry>) returns (result: seq<string>)
    ensures result == lines + EntryLines(entries)
  {
    result := lines;
    var i := 0;
    while i < |entries|
      invariant 0 <= i <= |entries|
      invariant result == lines + EntryLines(entries[..i])
    {
      var line := FormatEntry(entries[i]);
      EntryLinesStep(entries, i);
      SnocRegroup(lines, EntryLines(entries[..i]), line);
      result := result + [line];
      i := i + 1;
    }
    assert entries[..i] == entries;
  }

  /** `formatEntries`: the notice, or the heading and one line per entry, joined by line feeds. */
  method FormatEntries(entries: seq<ControllableSquaddieEntry>) returns (text: string)
    ensures text == JoinLines(EntriesLines(entries))
  {
    if |entries| == 0 {
      return "No squaddies can act this phase.";
    }
    var lines := AppendEntryLines(["Squaddies who can act:"], entries);
    text := Join(lines, "\n");
  }

  lemma ListingWordsOneLine()
    ensures '\n' !in "No squaddies can act this phase." && '\n' !in "Squaddies who can act:"
  {
  }

  lemma EntriesLinesOneLine(entries: seq<ControllableSquaddieEntry>)
    requires forall i :: 0 <= i < |entries| ==> '\n' !in entries[i].name
    ensures NoNewline(EntriesLines(entries))
  {
    var lines := EntriesLines(entries);
    ListingWordsOneLine();
    forall i | 0 <= i < |lines| ensures '\n' !in lines[i] {
      if |entries| > 0 && i > 0 {
        assert lines[i] == FormatEntry(entries[i - 1]);
        FormatEntryOneLine(entries[i - 1]);
      }
    }
  }

  /** Read back line by line, the listing is its heading (or notice) and one line per entry,
      whenever names are one line each. */
  lemma EntriesTextLines(entries: seq<ControllableSquaddieEntry>)
    requires forall i :: 0 <= i < |entries| ==> '\n' !in entries[i].name
    ensures var lines := Lines(JoinLines(EntriesLines(entries)));
            && |lines| == |entries| + 1
            && (|entries| == 0 ==> lines == ["No squaddies can act this phase."])
            && (|entries| > 0 ==> lines[0] == "Squaddies who can act:")
            && (forall i :: 0 <= i < |entries| ==> lines[i + 1] == FormatEntry(entries[i]))
  {
    EntriesLinesOneLine(entries);
    LinesOfJoinLines(EntriesLines(entries));
  }

  /** Each listed entry names a squaddie who can act, with that squaddie's own name. */
  lemma GatheredEntryNamed(engine: Snapshot, i: nat)
    requires i < |engine.canAct|
    ensures var line := FormatEntry(GatherEntries(engine)[i]);
            var name := engine.info(engine.canAct[i]).name;
            line[..|name| + 2] == "  " + name
  {
  }
}
