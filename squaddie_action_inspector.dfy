/**
 * The squaddie action inspector: the action point suffix of an action and the
 * "Actions:" block that lists invalid actions (with their reasons) before valid
 * ones (with their costs).
 */
module SquaddieActionInspector {
  import opened Wrappers
  import opened Text

  /** What an action spends on success: a number of action points or all of them. */
  datatype ActionPointCost = Spent(points: int) | AllPoints

  /** An action template; only the points it spends on success are read here. */
  datatype SquaddieAction = SquaddieAction(successSpent: Option<ActionPointCost>)

  datatype InvalidAction = InvalidAction(actionName: string, reason: string)

  datatype ValidAction = ValidAction(actionId: string, actionName: string)

  /** The validation service's verdict for one squaddie. */
  datatype Validity = Validity(invalidActions: seq<InvalidAction>, validActions: seq<ValidAction>)

  /** `formatActionPointCost`: nothing for a missing or zero cost, else the cost in parentheses. */
  function FormatActionPointCost(cost: Option<ActionPointCost>): (suffix: string)
    ensures suffix == "" <==> cost.None? || cost == Some(Spent(0))
    ensures suffix != "" ==> |suffix| > 1 && suffix[0] == ' ' && suffix[1] == '('
  {
    if cost.None? || cost.value == Spent(0) then ""
    else if cost.value == AllPoints then " (all AP)"
    else " (" + (IntToString(cost.value.points) + " AP)")
  }

  /** The fixed words of a cost suffix. */
  lemma CostWords()
    ensures " AP)"[0] == ' '
    ensures " (all AP)"[2] == 'a'
    ensures '\n' !in " AP)" && '\n' !in " (all AP)" && '\n' !in " ("
  {
  }

  /** A suffix that is shown determines the cost it came from. */
  lemma CostSuffixInjective(c1: Option<ActionPointCost>, c2: Option<ActionPointCost>)
    requires FormatActionPointCost(c1) == FormatActionPointCost(c2) != ""
    ensures c1 == c2
  {
    var s := FormatActionPointCost(c1);
    CostWords();
    if c1.value.Spent? && c2.value.Spent? {
      var i1, i2 := IntToString(c1.value.points), IntToString(c2.value.points);
      DropPrefix(" (", i1 + " AP)", i2 + " AP)");
      SplitAtStop(i1, " AP)", i2, " AP)", {' '});
      if c1.value.points != c2.value.points {
        IntToStringInjective(c1.value.points, c2.value.points);
      }
    } else if c1.value.Spent? {
      var i1 := IntToString(c1.value.points);
      ConcatIndex(" (", i1 + " AP)", 2);
      ConcatIndex(i1, " AP)", 0);
      assert false;
    } else if c2.value.Spent? {
      var i2 := IntToString(c2.value.points);
      ConcatIndex(" (", i2 + " AP)", 2);
      ConcatIndex(i2, " AP)", 0);
      assert false;
    }
  }

  /** A cost suffix is one line. */
  lemma CostSuffixOneLine(cost: Option<ActionPointCost>)
    ensures '\n' !in FormatActionPointCost(cost)
  {
    if cost.Some? && cost.value.Spent? && cost.value != Spent(0) {
      var digits := IntToString(cost.value.points);
      CostWords();
      InConcat('\n', digits, " AP)");
      InConcat('\n', " (", digits + " AP)");
    }
  }

  /** The cost an action spends on success, if the action is known and says. */
  function CostOf(actionsById: map<string, SquaddieAction>, id: string): Option<ActionPointCost> {
    if id in actionsById then actionsById[id].successSpent else None
  }

  function InvalidLine(action: InvalidAction): string {
    "    " + action.actionName + " - " + action.reason
  }

  function ValidLine(action: ValidAction, actionsById: map<string, SquaddieAction>): string {
    "    " + action.actionName + FormatActionPointCost(CostOf(actionsById, action.actionId))
  }

  /** One line per invalid action, in order. */
  function InvalidLines(actions: seq<InvalidAction>): (lines: seq<string>)
    ensures |lines| == |actions|
    ensures forall i :: 0 <= i < |actions| ==> lines[i] == InvalidLine(actions[i])
  {
    if actions == [] then [] else InvalidLines(actions[..|actions| - 1]) + [InvalidLine(actions[|actions| - 1])]
  }

  /** One line per valid action, in order. */
  function ValidLines(actions: seq<ValidAction>, actionsById: map<string, SquaddieAction>): (lines: seq<string>)
    ensures |lines| == |actions|
    ensures forall i :: 0 <= i < |actions| ==> lines[i] == ValidLine(actions[i], actionsById)
  {
    if actions == [] then [] else ValidLines(actions[..|actions| - 1], actionsById) + [ValidLine(actions[|actions| - 1], actionsById)]
  }

  lemma InvalidLinesStep(actions: seq<InvalidAction>, i: nat)
    requires i < |actions|
    ensures InvalidLines(actions[..i + 1]) == InvalidLines(actions[..i]) + [InvalidLine(actions[i])]
  {
    assert actions[..i + 1][..i] == actions[..i];
  }

  lemma ValidLinesStep(actions: seq<ValidAction>, j: nat, actionsById: map<string, SquaddieAction>)
    requires j < |actions|
    ensures ValidLines(actions[..j + 1], actionsById) == ValidLines(actions[..j], actionsById) + [ValidLine(actions[j], actionsById)]
  {
    assert actions[..j + 1][..j] == actions[..j];
  }

  function InvalidSection(actions: seq<InvalidAction>): seq<string> {
    if |actions| == 0 then [] else ["  Invalid:"] + InvalidLines(actions)
  }

  function ValidSection(actions: seq<ValidAction>, actionsById: map<string, SquaddieAction>): seq<string> {
    if |actions| == 0 then [] else ["  Valid:"] + ValidLines(actions, actionsById)
  }

  /** The lines of the block: none when there are no actions, else the heading, the invalid
      section and the valid section, each section present only when it has actions. */
  function ActionLines(validity: Validity, actionsById: map<string, SquaddieAction>): seq<string> {
    if |validity.invalidActions| == 0 && |validity.validActions| == 0 then []
    else ["Actions:"] + InvalidSection(validity.invalidActions) + ValidSection(validity.validActions, actionsById)
  }

  /** Appends one line per invalid action, name and reason, in order. */
  method AppendInvalidLines(lines: seq<string>, actions: seq<InvalidAction>) returns (result: seq<string>)
    ensures result == lines + InvalidLines(actions)
  {
    result := lines;
    var i := 0;
    while i < |actions|
      invariant 0 <= i <= |actions|
      invariant result == lines + InvalidLines(actions[..i])
    {
      var action := actions[i];
      assert result + [InvalidLine(action)] == lines + InvalidLines(actions[..i + 1]) by {
        InvalidLinesStep(actions, i);
        SnocRegroup(lines, InvalidLines(actions[..i]), InvalidLine(action));
      }
      result := result + ["    " + action.actionName + " - " + action.reason];
      i := i + 1;
    }
    assert actions[..i] == actions;
  }

  /** Appends one line per valid action, name and cost suffix, in order. */
  method AppendValidLines(lines: seq<string>, actions: seq<ValidAction>, actionsById: map<string, SquaddieAction>)
    returns (result: seq<string>)
    ensures result == lines + ValidLines(actions, actionsById)
  {
    result := lines;
    var j := 0;
    while j < |actions|
      invariant 0 <= j <= |actions|
      invariant result == lines + ValidLines(actions[..j], actionsById)
    {
      var action := actions[j];
      var cost := if action.actionId in actionsById then actionsById[action.actionId].successSpent else None;
      var costSuffix := FormatActionPointCost(cost);
      assert result + [ValidLine(action, actionsById)] == lines + ValidLines(actions[..j + 1], actionsById) by {
        ValidLinesStep(actions, j, actionsById);
        SnocRegroup(lines, ValidLines(actions[..j], actionsById), ValidLine(action, actionsById));
      }
      assert "    " + action.actionName + costSuffix == ValidLine(action, actionsById);
      result := result + ["    " + action.actionName + costSuffix];
      j := j + 1;
    }
    assert actions[..j] == actions;
  }

  method FormatSquaddieActions(validity: Validity, actionsById: map<string, SquaddieAction>) returns (text: string)
    ensures text == JoinLines(ActionLines(validity, actionsById))
  {
    var invalidActions, validActions := validity.invalidActions, validity.validActions;
    if |invalidActions| == 0 && |validActions| == 0 {
      return "";
    }
    var lines := ["Actions:"];
    if |invalidActions| > 0 {
      lines := AppendInvalidLines(lines + ["  Invalid:"], invalidActions);
      RegroupLines(["Actions:"], ["  Invalid:"], InvalidLines(invalidActions));
    }
    var head := lines;
    assert head == ["Actions:"] + InvalidSection(invalidActions);
    if |validActions| > 0 {
      lines := AppendValidLines(lines + ["  Valid:"], validActions, actionsById);
      RegroupLines(head, ["  Valid:"], ValidLines(validActions, actionsById));
    }
    assert lines == head + ValidSection(validActions, actionsById);
    text := Join(lines, "\n");
  }

  /** The block is empty exactly when there are no actions at all. */
  lemma ActionsTextEmpty(validity: Validity, actionsById: map<string, SquaddieAction>)
    ensures JoinLines(ActionLines(validity, actionsById)) == ""
            <==> |validity.invalidActions| == 0 && |validity.validActions| == 0
  {
    var lines := ActionLines(validity, actionsById);
    if lines != [] {
      var rest := InvalidSection(validity.invalidActions) + ValidSection(validity.validActions, actionsById);
      assert lines == ["Actions:"] + rest;
      JoinCons("Actions:", rest, "\n");
      assert |JoinLines(lines)| >= |"Actions:"|;
    }
  }

  /** Invalid actions come first, under their heading, in order; then valid actions,
      under theirs, in order. */
  lemma ActionLinesLayout(validity: Validity, actionsById: map<string, SquaddieAction>)
    requires |validity.invalidActions| > 0 || |validity.validActions| > 0
    ensures var lines := ActionLines(validity, actionsById);
            var inv, val := validity.invalidActions, validity.validActions;
            var validStart := if |inv| == 0 then 1 else 2 + |inv|;
            && |lines| == validStart + (if |val| == 0 then 0 else 1 + |val|)
            && lines[0] == "Actions:"
            && (|inv| > 0 ==> lines[1] == "  Invalid:")
            && (forall i :: 0 <= i < |inv| ==> lines[2 + i] == InvalidLine(inv[i]))
            && (|val| > 0 ==> lines[validStart] == "  Valid:")
            && (forall j :: 0 <= j < |val| ==> lines[validStart + 1 + j] == ValidLine(val[j], actionsById))
  {
  }

  /** With names and reasons on one line each, reading the block back line by line gives
      exactly its lines. */
  lemma ActionsTextLines(validity: Validity, actionsById: map<string, SquaddieAction>)
    requires |validity.invalidActions| > 0 || |validity.validActions| > 0
    requires forall i :: 0 <= i < |validity.invalidActions| ==>
               '\n' !in validity.invalidActions[i].actionName && '\n' !in validity.invalidActions[i].reason
    requires forall j :: 0 <= j < |validity.validActions| ==> '\n' !in validity.validActions[j].actionName
    ensures Lines(JoinLines(ActionLines(validity, actionsById))) == ActionLines(validity, actionsById)
  {
    var lines := ActionLines(validity, actionsById);
    ActionLinesOneLine(validity, actionsById);
    LinesOfJoinLines(lines);
  }

  /** With names and reasons on one line each, every line of the block is one line. */
  lemma ActionLinesOneLine(validity: Validity, actionsById: map<string, SquaddieAction>)
    requires forall i :: 0 <= i < |validity.invalidActions| ==>
               '\n' !in validity.invalidActions[i].actionName && '\n' !in validity.invalidActions[i].reason
    requires forall j :: 0 <= j < |validity.validActions| ==> '\n' !in validity.validActions[j].actionName
    ensures NoNewline(ActionLines(validity, actionsById))
  {
    var inv, val := validity.invalidActions, validity.validActions;
    var a, b := InvalidSection(inv), ValidSection(val, actionsById);
    InvalidSectionOneLine(inv);
    ValidSectionOneLine(val, actionsById);
    HeadingsOneLine();
    NoNewlineAppend(["Actions:"], a);
    NoNewlineAppend(["Actions:"] + a, b);
  }

  lemma InvalidSectionOneLine(inv: seq<InvalidAction>)
    requires forall i :: 0 <= i < |inv| ==> '\n' !in inv[i].actionName && '\n' !in inv[i].reason
    ensures NoNewline(InvalidSection(inv))
  {
    var a := InvalidSection(inv);
    HeadingsOneLine();
    forall i | 0 <= i < |a| ensures '\n' !in a[i] {
      if i > 0 {
        InvalidLineOneLine(inv[i - 1]);
      }
    }
  }

  lemma ValidSectionOneLine(val: seq<ValidAction>, actionsById: map<string, SquaddieAction>)
    requires forall j :: 0 <= j < |val| ==> '\n' !in val[j].actionName
    ensures NoNewline(ValidSection(val, actionsById))
  {
    var b := ValidSection(val, actionsById);
    HeadingsOneLine();
    forall j | 0 <= j < |b| ensures '\n' !in b[j] {
      if j > 0 {
        ValidLineOneLine(val[j - 1], actionsById);
      }
    }
  }

  lemma HeadingsOneLine()
    ensures '\n' !in "Actions:" && '\n' !in "  Invalid:" && '\n' !in "  Valid:"
  {
  }

  lemma InvalidLineOneLine(action: InvalidAction)
    requires '\n' !in action.actionName && '\n' !in action.reason
    ensures '\n' !in InvalidLine(action)
  {
    var indent, dash := "    ", " - ";
    assert '\n' !in indent && '\n' !in dash;
    InConcat('\n', indent, action.actionName);
    InConcat('\n', indent + action.actionName, dash);
    InConcat('\n', indent + action.actionName + dash, action.reason);
  }

  lemma ValidLineOneLine(action: ValidAction, actionsById: map<string, SquaddieAction>)
    requires '\n' !in action.actionName
    ensures '\n' !in ValidLine(action, actionsById)
  {
    var indent := "    ";
    assert '\n' !in indent;
    var suffix := FormatActionPointCost(CostOf(actionsById, action.actionId));
    CostSuffixOneLine(CostOf(actionsById, action.actionId));
    InConcat('\n', indent, action.actionName);
    InConcat('\n', indent + action.actionName, suffix);
  }

  /** A valid action shows a cost exactly when it is known, says what it spends, and that is
      not zero points; the shown cost is the action's own. */
  lemma ValidLineShowsCost(action: ValidAction, actionsById: map<string, SquaddieAction>)
    ensures var cost := CostOf(actionsById, action.actionId);
            ValidLine(action, actionsById) == "    " + action.actionName
            <==> cost.None? || cost == Some(Spent(0))
  {
    var head := "    " + action.actionName;
    var suffix := FormatActionPointCost(CostOf(actionsById, action.actionId));
    assert ValidLine(action, actionsById) == head + suffix;
    assert |head + suffix| == |head| + |suffix|;
  }
}
