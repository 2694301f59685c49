/**
 * The squaddie detail inspector: the display name of each condition kind, the one-line
 * description of a condition, and the "Conditions:" block listing a squaddie's conditions.
 */
module SquaddieDetailInspector {
  import opened Wrappers
  import opened Text
  import opened Engine

  /** The display name of each of the six condition kinds. */
  function ConditionTypeName(kind: ConditionType): (name: string)
    ensures |name| > 0
    ensures forall i :: 0 <= i < |name| ==> name[i] != ':' && name[i] != '(' && name[i] != ' ' && name[i] != '\n'
  {
    match kind
    case Unknown => "Unknown"
    case Absorb => "Absorb"
    case Armor => "Armor"
    case Elusive => "Elusive"
    case Slowed => "Slowed"
    case Hustle => "Hustle"
  }

  /** No two kinds share a display name. */
  lemma ConditionTypeNameInjective(a: ConditionType, b: ConditionType)
    requires ConditionTypeName(a) == ConditionTypeName(b)
    ensures a == b
  {
    var n := ConditionTypeName(a);
    assert n[0] == ConditionTypeName(b)[0] && n[1] == ConditionTypeName(b)[1];
  }

  /** `": <amount>"` when the condition has an amount, zero included. */
  function AmountSuffix(amount: Option<int>): string {
    match amount
    case None => ""
    case Some(a) => ": " + IntToString(a)
  }

  /** `" (<d> turns remaining)"` when the condition has a duration. */
  function DurationSuffix(duration: Option<int>): string {
    match duration
    case None => ""
    case Some(d) => " (" + (IntToString(d) + " turns remaining)")
  }

  /** The text `formatCondition` builds: the kind's name, then the amount and duration
      suffixes, each present exactly when its field is. */
  function ConditionText(c: Condition): string {
    ConditionTypeName(c.kind) + (AmountSuffix(c.amount) + DurationSuffix(c.duration))
  }

  method FormatCondition(condition: Condition) returns (result: string)
    ensures result == ConditionText(condition)
  {
    result := ConditionTypeName(condition.kind);
    if condition.amount.Some? {
      result := result + ": " + IntToString(condition.amount.value);
    }
    if condition.duration.Some? {
      result := result + " (" + IntToString(condition.duration.value) + " turns remaining)";
    }
  }

  /** The amount suffix is empty exactly without an amount; otherwise it starts with the only
      colon it holds, and it has no parenthesis, space after the colon's or line feed. */
  lemma AmountSuffixShape(amount: Option<int>)
    ensures AmountSuffix(amount) == "" <==> amount.None?
    ensures amount.Some? ==> AmountSuffix(amount)[0] == ':'
    ensures '(' !in AmountSuffix(amount) && '\n' !in AmountSuffix(amount)
  {
    if amount.Some? {
      var digits := IntToString(amount.value);
      assert AmountSuffix(amount) == ": " + digits;
      assert '(' !in digits;
    }
  }

  /** The duration suffix is empty exactly without a duration; otherwise it starts with
      " (", and it has no colon or line feed. */
  lemma DurationSuffixShape(duration: Option<int>)
    ensures DurationSuffix(duration) == "" <==> duration.None?
    ensures duration.Some? ==> DurationSuffix(duration)[0] == ' ' && DurationSuffix(duration)[1] == '('
    ensures ':' !in DurationSuffix(duration) && '\n' !in DurationSuffix(duration)
  {
    if duration.Some? {
      var digits := IntToString(duration.value);
      DurationWordsPlain();
      assert ':' !in digits + " turns remaining)";
    }
  }

  /** The fixed words after a duration hold no colon and no line feed, and start with a space. */
  lemma DurationWordsPlain()
    ensures ':' !in " turns remaining)" && '\n' !in " turns remaining)"
    ensures " turns remaining)"[0] == ' '
  {
  }

  /** A condition's text has a colon exactly when it has an amount and an opening
      parenthesis exactly when it has a duration; it never holds a line feed. */
  lemma ConditionTextMarks(c: Condition)
    ensures ':' in ConditionText(c) <==> c.amount.Some?
    ensures '(' in ConditionText(c) <==> c.duration.Some?
    ensures '\n' !in ConditionText(c)
  {
    var name := ConditionTypeName(c.kind);
    var suffixes := AmountSuffix(c.amount) + DurationSuffix(c.duration);
    SuffixMarks(c);
    InConcat(':', name, suffixes);
    InConcat('(', name, suffixes);
    InConcat('\n', name, suffixes);
  }

  /** The part after the name carries the colon and parenthesis marks. */
  lemma SuffixMarks(c: Condition)
    ensures var r := AmountSuffix(c.amount) + DurationSuffix(c.duration);
            (':' in r <==> c.amount.Some?) && ('(' in r <==> c.duration.Some?) && '\n' !in r
  {
    var amount := AmountSuffix(c.amount);
    var duration := DurationSuffix(c.duration);
    AmountSuffixShape(c.amount);
    DurationSuffixShape(c.duration);
    assert c.amount.Some? ==> amount[0] == ':';
    assert c.duration.Some? ==> duration[1] == '(';
    InConcat(':', amount, duration);
    InConcat('(', amount, duration);
    InConcat('\n', amount, duration);
  }

  /** An amount of zero is still shown, as ": 0" right after the name. */
  lemma ZeroAmountShown(kind: ConditionType, duration: Option<int>)
    ensures var name := ConditionTypeName(kind);
            ConditionText(Condition(kind, Some(0), duration))[|name|..|name| + 3] == ": 0"
  {
    var name := ConditionTypeName(kind);
    var rest := AmountSuffix(Some(0)) + DurationSuffix(duration);
    assert ConditionText(Condition(kind, Some(0), duration)) == name + rest;
    assert rest[..3] == ": 0" by {
      assert IntToString(0) == "0";
      assert AmountSuffix(Some(0)) == ": 0";
    }
    assert (name + rest)[|name|..|name| + 3] == rest[..3];
  }

  /** The duration suffix determines the duration. */
  lemma DurationSuffixInjective(d1: Option<int>, d2: Option<int>)
    requires DurationSuffix(d1) == DurationSuffix(d2)
    ensures d1 == d2
  {
    DurationSuffixShape(d1);
    DurationSuffixShape(d2);
    if d1.Some? && d2.Some? {
      var rest := " turns remaining)";
      var i1, i2 := IntToString(d1.value), IntToString(d2.value);
      DropPrefix(" (", i1 + rest, i2 + rest);
      DurationWordsPlain();
      SplitAtStop(i1, rest, i2, rest, {' '});
      if d1.value != d2.value {
        IntToStringInjective(d1.value, d2.value);
      }
    }
  }

  /** The amount and duration suffixes together determine both fields. */
  lemma SuffixesInjective(c1: Condition, c2: Condition)
    requires AmountSuffix(c1.amount) + DurationSuffix(c1.duration) == AmountSuffix(c2.amount) + DurationSuffix(c2.duration)
    ensures c1.amount == c2.amount && c1.duration == c2.duration
  {
    var a1, a2 := AmountSuffix(c1.amount), AmountSuffix(c2.amount);
    var t1, t2 := DurationSuffix(c1.duration), DurationSuffix(c2.duration);
    AmountSuffixShape(c1.amount);
    AmountSuffixShape(c2.amount);
    DurationSuffixShape(c1.duration);
    DurationSuffixShape(c2.duration);
    if c1.amount.Some? && c2.amount.Some? {
      var i1, i2 := IntToString(c1.amount.value), IntToString(c2.amount.value);
      DropPrefixGrouped(": ", i1, t1, i2, t2);
      SplitAtStop(i1, t1, i2, t2, {' '});
      if c1.amount.value != c2.amount.value {
        IntToStringInjective(c1.amount.value, c2.amount.value);
      }
    } else if c1.amount.Some? || c2.amount.Some? {
      ConcatIndex(a1, t1, 0);
      ConcatIndex(a2, t2, 0);
      assert false;
    } else {
      assert a1 + t1 == t1 && a2 + t2 == t2;
    }
    DurationSuffixInjective(c1.duration, c2.duration);
  }

  /** What follows the name is empty or starts with a colon or a space. */
  lemma AfterNameStarts(c: Condition)
    ensures var r := AmountSuffix(c.amount) + DurationSuffix(c.duration);
            |r| > 0 ==> r[0] == ':' || r[0] == ' '
  {
    AmountSuffixShape(c.amount);
    DurationSuffixShape(c.duration);
  }

  /** No information is lost: a condition's text determines the condition. */
  lemma ConditionTextInjective(c1: Condition, c2: Condition)
    requires ConditionText(c1) == ConditionText(c2)
    ensures c1 == c2
  {
    var n1, n2 := ConditionTypeName(c1.kind), ConditionTypeName(c2.kind);
    var r1 := AmountSuffix(c1.amount) + DurationSuffix(c1.duration);
    var r2 := AmountSuffix(c2.amount) + DurationSuffix(c2.duration);
    AfterNameStarts(c1);
    AfterNameStarts(c2);
    SplitAtStop(n1, r1, n2, r2, {':', ' '});
    ConditionTypeNameInjective(c1.kind, c2.kind);
    SuffixesInjective(c1, c2);
  }

  /** One indented line per condition, in the given order. */
  function ConditionLines(conditions: seq<Condition>): (lines: seq<string>)
    ensures |lines| == |conditions|
  {
    seq(|conditions|, i requires 0 <= i < |conditions| => "  " + ConditionText(conditions[i]))
  }

  /** `formatSquaddieDetails`: nothing for no conditions, else a heading and the lines. */
  function FormatSquaddieDetails(conditions: seq<Condition>): (text: string)
    ensures text == "" <==> |conditions| == 0
  {
    if |conditions| == 0 then ""
    else "Conditions:\n" + Join(ConditionLines(conditions), "\n")
  }

  /** The heading is one line. */
  lemma HeadingOneLine()
    ensures '\n' !in "Conditions:"
  {
  }

  /** Each condition line is one line. */
  lemma ConditionLinesOneLine(conditions: seq<Condition>)
    ensures NoNewline(ConditionLines(conditions))
  {
    var lines := ConditionLines(conditions);
    forall i | 0 <= i < |lines| ensures '\n' !in lines[i] {
      ConditionTextMarks(conditions[i]);
      InConcat('\n', "  ", ConditionText(conditions[i]));
    }
  }

  /** Read back line by line, the block is the heading and then one line per condition. */
  lemma DetailsLines(conditions: seq<Condition>)
    requires |conditions| > 0
    ensures Lines(FormatSquaddieDetails(conditions)) == ["Conditions:"] + ConditionLines(conditions)
  {
    var body := ConditionLines(conditions);
    var lines := ["Conditions:"] + body;
    assert "Conditions:\n" == "Conditions:" + "\n";
    JoinCons("Conditions:", body, "\n");
    HeadingOneLine();
    ConditionLinesOneLine(conditions);
    assert NoNewline(lines) by {
      forall i | 0 <= i < |lines| ensures '\n' !in lines[i] {
        if i > 0 { assert lines[i] == body[i - 1]; }
      }
    }
    LinesOfJoinLines(lines);
  }
}
