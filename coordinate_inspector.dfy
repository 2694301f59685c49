/**
 * The coordinate inspector: reading a coordinate typed by the player, naming a tile's
 * terrain, and describing what stands at a coordinate.
 *
 * The player's text is matched, after trimming, against the pattern
 * `^\(?(\d+)[,\s]+(\d+)\)?$`: an optional opening parenthesis, a run of digits, a run of
 * commas and whitespace, a run of digits and an optional closing parenthesis. The two
 * parentheses are independent, so "(1 2" is accepted.
 */
module CoordinateInspector {
  import opened Wrappers
  import opened Text
  import opened Engine
  import MapRenderer

  // ---------------------------------------------------------------------------
  // parseCoordinate
  // ---------------------------------------------------------------------------

  /** The characters of the pattern's `[,\s]` class. */
  predicate IsSeparator(c: char) {
    c == ',' || IsSpace(c)
  }

  predicate AllSeparators(s: string) {
    forall i :: 0 <= i < |s| ==> IsSeparator(s[i])
  }

  /** Length of the longest run of digits that `s` starts with (what `\d+` consumes). */
  function DigitRun(s: string): (n: nat)
    ensures n <= |s|
  {
    if |s| > 0 && IsDigit(s[0]) then 1 + DigitRun(s[1..]) else 0
  }

  /** Length of the longest run of separators that `s` starts with (what `[,\s]+` consumes). */
  function SeparatorRun(s: string): (n: nat)
    ensures n <= |s|
  {
    if |s| > 0 && IsSeparator(s[0]) then 1 + SeparatorRun(s[1..]) else 0
  }

  /** The digit run is all digits and stops at the first non-digit. */
  lemma {:induction false} DigitRunProps(s: string)
    ensures AllDigits(s[..DigitRun(s)])
    ensures DigitRun(s) < |s| ==> !IsDigit(s[DigitRun(s)])
    decreases |s|
  {
    if |s| > 0 && IsDigit(s[0]) {
      DigitRunProps(s[1..]);
      var n := DigitRun(s[1..]);
      assert s[..n + 1] == [s[0]] + s[1..][..n];
    }
  }

  /** The separator run is all separators and stops at the first other character. */
  lemma {:induction false} SeparatorRunProps(s: string)
    ensures AllSeparators(s[..SeparatorRun(s)])
    ensures SeparatorRun(s) < |s| ==> !IsSeparator(s[SeparatorRun(s)])
    decreases |s|
  {
    if |s| > 0 && IsSeparator(s[0]) {
      SeparatorRunProps(s[1..]);
      var n := SeparatorRun(s[1..]);
      assert s[..n + 1] == [s[0]] + s[1..][..n];
    }
  }

  /** Digits followed by a non-digit: the digit run is exactly the digits. */
  lemma {:induction false} DigitRunOf(x: string, y: string)
    requires AllDigits(x) && (|y| > 0 ==> !IsDigit(y[0]))
    ensures DigitRun(x + y) == |x|
    decreases |x|
  {
    if |x| > 0 {
      assert (x + y)[1..] == x[1..] + y;
      DigitRunOf(x[1..], y);
    } else {
      assert x + y == y;
    }
  }

  /** Separators followed by a non-separator: the separator run is exactly the separators. */
  lemma {:induction false} SeparatorRunOf(x: string, y: string)
    requires AllSeparators(x) && (|y| > 0 ==> !IsSeparator(y[0]))
    ensures SeparatorRun(x + y) == |x|
    decreases |x|
  {
    if |x| > 0 {
      assert (x + y)[1..] == x[1..] + y;
      SeparatorRunOf(x[1..], y);
    } else {
      assert x + y == y;
    }
  }

  /** The `(` the pattern consumes, if any. */
  function OpenOf(t: string): string {
    if |t| > 0 && t[0] == '(' then "(" else ""
  }

  /** The `)` the pattern consumes, if any (never the `(` already taken). */
  function CloseOf(t: string): string {
    var a := t[|OpenOf(t)|..];
    if |a| > 0 && a[|a| - 1] == ')' then ")" else ""
  }

  /** Drops one leading `(` and then one trailing `)`, each only when present. */
  function StripParens(t: string): string {
    var a := t[|OpenOf(t)|..];
    a[..|a| - |CloseOf(t)|]
  }

  /** The two digit runs of `b`, when `b` is digits, separators, digits and nothing else. */
  function ParseBody(b: string): Option<Coord> {
    var n := DigitRun(b);
    var m := SeparatorRun(b[n..]);
    var rest := b[n + m..];
    if n > 0 && m > 0 && |rest| > 0 && AllDigits(rest) then
      DigitRunProps(b);
      Some(Coord(DigitsValue(b[..n]), DigitsValue(rest)))
    else
      None
  }

  /** The pattern applied to already trimmed text. */
  function ParseTrimmed(t: string): Option<Coord> {
    ParseBody(StripParens(t))
  }

  /** `parseCoordinate`: trim, then match the pattern and read both numbers in base 10. */
  function ParseCoordinate(input: string): (r: Option<Coord>)
    ensures r.Some? ==> r.value.row >= 0 && r.value.col >= 0
  {
    ParseTrimmed(Trim(input))
  }

  /** The pattern's language, written out piece by piece: `t` is `open d1 sep d2 close`. */
  predicate Composes(t: string, open: string, d1: string, sep: string, d2: string, close: string) {
    && (open == "" || open == "(")
    && |d1| > 0 && AllDigits(d1)
    && |sep| > 0 && AllSeparators(sep)
    && |d2| > 0 && AllDigits(d2)
    && (close == "" || close == ")")
    && t == open + (d1 + sep + d2) + close
  }

  /** Text is what stripping leaves between the parentheses it strips. */
  lemma StripParensShape(t: string)
    ensures OpenOf(t) == "" || OpenOf(t) == "("
    ensures CloseOf(t) == "" || CloseOf(t) == ")"
    ensures t == OpenOf(t) + StripParens(t) + CloseOf(t)
  {
    var a := t[|OpenOf(t)|..];
    assert a == StripParens(t) + CloseOf(t);
  }

  /** Stripping removes exactly the optional parentheses around a body that does not itself
      start with `(` or end with `)`. */
  lemma StripParensOf(open: string, b: string, close: string)
    requires open == "" || open == "("
    requires close == "" || close == ")"
    requires |b| > 0 && b[0] != '(' && b[|b| - 1] != ')'
    ensures StripParens(open + b + close) == b
  {
    var t := open + b + close;
    var a := b + close;
    assert t == open + a;
    assert OpenOf(t) == open by {
      assert t[0] == if open == "(" then '(' else b[0];
    }
    assert t[|open|..] == a;
    assert CloseOf(t) == close by {
      assert a[|a| - 1] == if close == ")" then ')' else b[|b| - 1];
    }
    assert a[..|a| - |close|] == b;
  }

  /** A text cut at `n` and again `m` further on is its three pieces. */
  lemma ThreePieces(b: string, n: nat, m: nat)
    requires n + m <= |b|
    ensures b == b[..n] + b[n..][..m] + b[n + m..]
  {
  }

  /** Digits, separators, digits: the body is read as its two digit runs. */
  lemma ParseBodyOf(d1: string, sep: string, d2: string)
    requires |d1| > 0 && AllDigits(d1)
    requires |sep| > 0 && AllSeparators(sep)
    requires |d2| > 0 && AllDigits(d2)
    ensures ParseBody(d1 + sep + d2) == Some(Coord(DigitsValue(d1), DigitsValue(d2)))
  {
    var b := d1 + sep + d2;
    assert b == d1 + (sep + d2) && b[..|d1|] == d1 && b[|d1|..] == sep + d2 && b[|d1| + |sep|..] == d2;
    DigitRunOf(d1, sep + d2);
    SeparatorRunOf(sep, d2);
  }

  /** Every text of the pattern's shape is accepted, with the values of its two digit runs. */
  lemma ParseComplete(t: string, open: string, d1: string, sep: string, d2: string, close: string)
    requires Composes(t, open, d1, sep, d2, close)
    ensures ParseTrimmed(t) == Some(Coord(DigitsValue(d1), DigitsValue(d2)))
  {
    var b := d1 + sep + d2;
    assert b[0] == d1[0] && b[|b| - 1] == d2[|d2| - 1];
    StripParensOf(open, b, close);
    ParseBodyOf(d1, sep, d2);
  }

  /** Every accepted text has the pattern's shape, and the result is the value of its runs. */
  lemma ParseSound(t: string)
    requires ParseTrimmed(t).Some?
    ensures exists open, d1, sep, d2, close :: Composes(t, open, d1, sep, d2, close)
              && ParseTrimmed(t).value == Coord(DigitsValue(d1), DigitsValue(d2))
  {
    var b := StripParens(t);
    var n := DigitRun(b);
    var m := SeparatorRun(b[n..]);
    var open, close := OpenOf(t), CloseOf(t);
    var d1, sep, d2 := b[..n], b[n..][..m], b[n + m..];
    assert |d1| > 0 && |sep| > 0 && |d2| > 0 && AllDigits(d2);
    assert AllDigits(d1) by {
      DigitRunProps(b);
    }
    assert AllSeparators(sep) by {
      SeparatorRunProps(b[n..]);
    }
    assert (open == "" || open == "(") && (close == "" || close == ")") && t == open + b + close by {
      StripParensShape(t);
    }
    assert b == d1 + sep + d2 by {
      ThreePieces(b, n, m);
    }
    assert Composes(t, open, d1, sep, d2, close);
  }

  /** Each character of a text of the pattern's shape is a parenthesis, a digit or a separator,
      and the first character after the first digit run is a separator. */
  lemma ComposedChars(t: string, open: string, d1: string, sep: string, d2: string, close: string)
    requires Composes(t, open, d1, sep, d2, close)
    ensures forall k :: 0 <= k < |t| ==> t[k] == '(' || t[k] == ')' || IsDigit(t[k]) || IsSeparator(t[k])
    ensures IsSeparator(t[|open| + |d1|])
  {
    var b := d1 + sep + d2;
    forall k | 0 <= k < |t| ensures t[k] == '(' || t[k] == ')' || IsDigit(t[k]) || IsSeparator(t[k]) {
      if k < |open| {
        assert t[k] == open[k];
      } else if k < |open| + |b| {
        var j := k - |open|;
        assert t[k] == b[j];
        if j < |d1| {
          assert b[j] == d1[j];
        } else if j < |d1| + |sep| {
          assert b[j] == sep[j - |d1|];
        } else {
          assert b[j] == d2[j - |d1| - |sep|];
        }
      } else {
        assert t[k] == close[k - |open| - |b|];
      }
    }
    assert t[|open| + |d1|] == b[|d1|] == sep[0];
  }

  /** An accepted text consists of parentheses, digits and separators only. */
  lemma ParsedChars(t: string, k: nat)
    requires ParseTrimmed(t).Some? && k < |t|
    ensures t[k] == '(' || t[k] == ')' || IsDigit(t[k]) || IsSeparator(t[k])
  {
    ParseSound(t);
    var open, d1, sep, d2, close :| Composes(t, open, d1, sep, d2, close);
    ComposedChars(t, open, d1, sep, d2, close);
  }

  /** An accepted text holds at least one separator between its numbers. */
  lemma ParsedHasSeparator(t: string)
    requires ParseTrimmed(t).Some?
    ensures exists k :: 0 <= k < |t| && IsSeparator(t[k])
  {
    ParseSound(t);
    var open, d1, sep, d2, close :| Composes(t, open, d1, sep, d2, close);
    ComposedChars(t, open, d1, sep, d2, close);
    var k := |open| + |d1|;
    assert 0 <= k < |t| && IsSeparator(t[k]);
  }

  /** Regrouping the five pieces of a written coordinate. */
  lemma Regroup(open: string, d1: string, sep: string, d2: string, close: string)
    ensures open + d1 + sep + d2 + close == open + (d1 + sep + d2) + close
  {
  }

  /** Round trip: a row and a column written in any of the accepted layouts parse back. */
  lemma ParseRoundTrip(row: nat, col: nat, open: string, sep: string, close: string)
    requires open == "" || open == "("
    requires close == "" || close == ")"
    requires |sep| > 0 && AllSeparators(sep)
    ensures ParseCoordinate(open + NatToString(row) + sep + NatToString(col) + close) == Some(Coord(row, col))
  {
    var d1 := NatToString(row);
    var d2 := NatToString(col);
    var t := open + d1 + sep + d2 + close;
    Regroup(open, d1, sep, d2, close);
    assert t[0] == if open == "(" then '(' else d1[0];
    assert t[|t| - 1] == if close == ")" then ')' else d2[|d2| - 1];
    TrimUnpadded(t);
    ParseComplete(t, open, d1, sep, d2, close);
    DigitsValueOfNatToString(row);
    DigitsValueOfNatToString(col);
  }

  /** Leaving out both parentheses leaves the bare text. */
  lemma Unparenthesised(d1: string, sep: string, d2: string)
    ensures "" + d1 + sep + d2 + "" == d1 + sep + d2
  {
  }

  /** Without parentheses: the row, the separators and the column parse back. */
  lemma BareRoundTrip(row: nat, col: nat, sep: string)
    requires |sep| > 0 && AllSeparators(sep)
    ensures ParseCoordinate(NatToString(row) + sep + NatToString(col)) == Some(Coord(row, col))
  {
    Unparenthesised(NatToString(row), sep, NatToString(col));
    ParseRoundTrip(row, col, "", sep, "");
  }

  /** The parentheses are independent: an unclosed "(1 2" is accepted. */
  lemma UnclosedParenthesis()
    ensures ParseCoordinate("(1 2") == Some(Coord(1, 2))
  {
    assert NatToString(1) == "1" && NatToString(2) == "2";
    assert "(" + "1" + " " + "2" + "" == "(1 2";
    ParseRoundTrip(1, 2, "(", " ", "");
  }

  predicate IsLetter(c: char) {
    'a' <= c <= 'z' || 'A' <= c <= 'Z'
  }

  /** Input holding a letter anywhere is rejected. */
  lemma LetterRejected(input: string, i: nat)
    requires i < |input| && IsLetter(input[i])
    ensures ParseCoordinate(input) == None
  {
    var t := Trim(input);
    TrimKeeps(input, i);
    if ParseTrimmed(t).Some? {
      var k :| 0 <= k < |t| && t[k] == input[i];
      ParsedChars(t, k);
    }
  }

  /** Input with no comma or whitespace between non-blank characters, such as a single
      number, is rejected. */
  lemma NoSeparatorRejected(input: string)
    requires forall k :: 0 <= k < |Trim(input)| ==> !IsSeparator(Trim(input)[k])
    ensures ParseCoordinate(input) == None
  {
    if ParseTrimmed(Trim(input)).Some? {
      ParsedHasSeparator(Trim(input));
    }
  }

  // ---------------------------------------------------------------------------
  // terrainName
  // ---------------------------------------------------------------------------

  /** `terrainName`: no movement cost is a wall, else a tile one cannot stop on is a pit,
      else cost 1 is standard and any other cost difficult. */
  function TerrainName(movementCost: Option<int>, canStop: bool): (name: string)
    ensures name == "Wall" <==> movementCost.None?
    ensures name == "Pit" <==> movementCost.Some? && !canStop
    ensures name == "Standard" <==> movementCost == Some(1) && canStop
    ensures name == "Difficult" <==> movementCost.Some? && movementCost != Some(1) && canStop
  {
    if movementCost.None? then "Wall"
    else if !canStop then "Pit"
    else if movementCost.value == 1 then "Standard"
    else "Difficult"
  }

  /** The inspector's terrain names and the map's symbols describe the same four kinds. */
  lemma TerrainNameMatchesSymbol(movementCost: Option<int>, canStop: bool)
    ensures var name := TerrainName(movementCost, canStop);
            var sym := MapRenderer.TerrainToSymbol(movementCost, canStop);
            && (name == "Wall" <==> sym == "#")
            && (name == "Pit" <==> sym == "_")
            && (name == "Standard" <==> sym == ".")
            && (name == "Difficult" <==> sym == "~")
  {
  }

  // ---------------------------------------------------------------------------
  // inspectCoordinate
  // ---------------------------------------------------------------------------

  /** `"(<row>,<col>)"`. */
  function CoordLabel(c: Coord): string {
    "(" + IntToString(c.row) + "," + IntToString(c.col) + ")"
  }

  /** The answer for a coordinate outside the map, naming the valid ranges. */
  function OffMapMessage(m: MapOverview, c: Coord): string {
    CoordLabel(c) + " is off map (rows less than " + NatToString(m.height)
      + " and columns less than " + NatToString(m.width) + " are valid.)"
  }

  /** The occupant's name, hit points and action points. */
  function OccupantLines(info: SquaddieInfo): seq<string> {
    [ info.name,
      "  Hit Points: " + IntToString(info.currentHitPoints) + "/" + IntToString(info.maxHitPoints),
      "  Action Points: " + IntToString(info.currentActionPoints) + "/" + IntToString(info.maximumActionPoints) ]
  }

  /** The lines `inspectCoordinate` joins: the off-map message alone, or the terrain line
      followed by the occupant's lines when a squaddie stands there. */
  function InspectLines(engine: Snapshot, c: Coord): seq<string>
    requires WellFormed(engine.overview)
  {
    var m := engine.overview;
    if !OnMap(m, c) then [OffMapMessage(m, c)]
    else
      var t := TileAt(m, c);
      [CoordLabel(c) + ": " + TerrainName(t.movementCost, t.canStop)]
        + (if t.squaddie.Some? then OccupantLines(engine.info(t.squaddie.value)) else [])
  }

  method InspectCoordinate(engine: Snapshot, coordinate: Coord) returns (text: string)
    requires WellFormed(engine.overview)
    ensures text == JoinLines(InspectLines(engine, coordinate))
  {
    var dimensions := engine.overview;
    var coordinateLabel := "(" + IntToString(coordinate.row) + "," + IntToString(coordinate.col) + ")";
    if coordinate.row < 0 || coordinate.col < 0 || coordinate.row >= dimensions.height || coordinate.col >= dimensions.width {
      text := coordinateLabel + " is off map (rows less than " + NatToString(dimensions.height)
        + " and columns less than " + NatToString(dimensions.width) + " are valid.)";
      assert InspectLines(engine, coordinate) == [text];
      return;
    }
    var terrain := TileAt(engine.overview, coordinate);
    var name := TerrainName(terrain.movementCost, terrain.canStop);
    var lines := [coordinateLabel + ": " + name];
    var squaddieId := terrain.squaddie;
    if squaddieId.Some? {
      var info := engine.info(squaddieId.value);
      lines := lines + [info.name];
      lines := lines + ["  Hit Points: " + IntToString(info.currentHitPoints) + "/" + IntToString(info.maxHitPoints)];
      lines := lines + ["  Action Points: " + IntToString(info.currentActionPoints) + "/" + IntToString(info.maximumActionPoints)];
    }
    assert lines == InspectLines(engine, coordinate);
    text := JoinLines(lines);
  }

  /** The off-map message is the whole answer exactly when the coordinate is off the map. */
  lemma OffMapIff(engine: Snapshot, c: Coord)
    requires WellFormed(engine.overview)
    ensures !OnMap(engine.overview, c) <==> InspectLines(engine, c) == [OffMapMessage(engine.overview, c)]
    ensures !OnMap(engine.overview, c) ==> JoinLines(InspectLines(engine, c)) == OffMapMessage(engine.overview, c)
  {
    var coordLabel := CoordLabel(c);
    if OnMap(engine.overview, c) {
      var first := InspectLines(engine, c)[0];
      var t := TileAt(engine.overview, c);
      assert first == coordLabel + ": " + TerrainName(t.movementCost, t.canStop);
      assert first[|coordLabel|] == ':';
      assert OffMapMessage(engine.overview, c)[|coordLabel|] == ' ';
    }
  }

  /** On the map the answer starts with the terrain line, and three occupant lines follow
      exactly when a squaddie stands on the tile. */
  lemma OnMapLines(engine: Snapshot, c: Coord)
    requires WellFormed(engine.overview) && OnMap(engine.overview, c)
    ensures var t := TileAt(engine.overview, c);
            var lines := InspectLines(engine, c);
            && lines[0] == CoordLabel(c) + ": " + TerrainName(t.movementCost, t.canStop)
            && |lines| == (if t.squaddie.Some? then 4 else 1)
            && (t.squaddie.Some? ==> lines[1..] == OccupantLines(engine.info(t.squaddie.value)))
  {
  }

  /** The off-map message is a single line. */
  lemma OffMapMessageOneLine(m: MapOverview, c: Coord)
    ensures '\n' !in OffMapMessage(m, c)
  {
    var where, height, width := CoordLabel(c), NatToString(m.height), NatToString(m.width);
    assert '\n' !in where && '\n' !in height && '\n' !in width;
    var p1, p2, p3 := " is off map (rows less than ", " and columns less than ", " are valid.)";
    OffMapWordsOneLine();
    assert OffMapMessage(m, c) == where + p1 + height + p2 + width + p3;
  }

  /** The fixed words of the off-map message hold no line break. */
  lemma OffMapWordsOneLine()
    ensures '\n' !in " is off map (rows less than "
    ensures '\n' !in " and columns less than "
    ensures '\n' !in " are valid.)"
  {
  }

  /** The terrain line is a single line. */
  lemma TerrainLineOneLine(c: Coord, movementCost: Option<int>, canStop: bool)
    ensures '\n' !in CoordLabel(c) + ": " + TerrainName(movementCost, canStop)
  {
    assert '\n' !in CoordLabel(c);
  }

  /** The occupant's lines are single lines when the name is. */
  lemma OccupantLinesOneLine(info: SquaddieInfo)
    requires '\n' !in info.name
    ensures NoNewline(OccupantLines(info))
  {
    var lines := OccupantLines(info);
    assert '\n' !in lines[1];
    assert '\n' !in lines[2];
  }

  /** Read back line by line, the answer has one line for an empty tile or an off-map
      coordinate and four for an occupied tile, provided the occupant's name is one line. */
  lemma InspectTextLines(engine: Snapshot, c: Coord)
    requires WellFormed(engine.overview)
    requires OnMap(engine.overview, c) && TileAt(engine.overview, c).squaddie.Some?
             ==> '\n' !in engine.info(TileAt(engine.overview, c).squaddie.value).name
    ensures Lines(JoinLines(InspectLines(engine, c))) == InspectLines(engine, c)
    ensures |Lines(JoinLines(InspectLines(engine, c)))|
         == if OnMap(engine.overview, c) && TileAt(engine.overview, c).squaddie.Some? then 4 else 1
  {
    var lines := InspectLines(engine, c);
    var m := engine.overview;
    if OnMap(m, c) {
      var t := TileAt(m, c);
      TerrainLineOneLine(c, t.movementCost, t.canStop);
      if t.squaddie.Some? {
        OccupantLinesOneLine(engine.info(t.squaddie.value));
      }
    } else {
      OffMapMessageOneLine(m, c);
    }
    assert NoNewline(lines);
    LinesOfJoinLines(lines);
  }
}
