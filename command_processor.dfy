/**
 * The command processor: a trimmed, upper-cased "Q" quits; any other input is echoed back
 * exactly as typed.
 */
module CommandProcessor {
  import opened Text

  datatype CommandAction = Quit | Echo

  datatype CommandResult = CommandResult(action: CommandAction, message: string)

  /** The fixed start of an echo. */
  const EchoPrefix: string := "You entered: "

  /** `processCommand`. */
  function ProcessCommand(rawInput: string): (result: CommandResult)
    ensures result.action == Quit ==> result.message == "Goodbye!"
    ensures result.action == Echo ==>
              && |result.message| == |EchoPrefix| + |rawInput|
              && result.message[..|EchoPrefix|] == EchoPrefix
              && result.message[|EchoPrefix|..] == rawInput
  {
    var normalizedInput := Upper(Trim(rawInput));
    if normalizedInput == "Q" then CommandResult(Quit, "Goodbye!")
    else CommandResult(Echo, EchoPrefix + rawInput)
  }

  /** Only the letter q, in either case, upper-cases to "Q". */
  lemma UpperIsQ(t: string)
    ensures Upper(t) == "Q" <==> t == "q" || t == "Q"
  {
    if Upper(t) == "Q" {
      assert |t| == 1 && UpperChar(t[0]) == 'Q';
      assert t == [t[0]];
    }
    if t == "q" {
      assert Upper(t)[0] == UpperChar('q') == 'Q';
    }
    if t == "Q" {
      assert Upper(t)[0] == 'Q';
    }
  }

  /** The input quits exactly when, stripped of surrounding whitespace, it is a single q of
      either case. */
  lemma QuitIff(rawInput: string)
    ensures ProcessCommand(rawInput).action == Quit <==> Trim(rawInput) == "q" || Trim(rawInput) == "Q"
  {
    UpperIsQ(Trim(rawInput));
  }

  /** Surrounding whitespace never changes whether the input quits. */
  lemma PaddingIgnored(before: string, rawInput: string, after: string)
    requires AllSpace(before) && AllSpace(after)
    ensures ProcessCommand(before + rawInput + after).action == ProcessCommand(rawInput).action
  {
    TrimPadded(before, rawInput, after);
  }

  /** Case never changes whether the input quits. */
  lemma CaseIgnored(rawInput: string)
    ensures ProcessCommand(Upper(rawInput)).action == ProcessCommand(rawInput).action
  {
    UpperTrim(rawInput);
    UpperIdempotent(Trim(rawInput));
  }

  /** Upper-casing twice is upper-casing once. */
  lemma UpperIdempotent(s: string)
    ensures Upper(Upper(s)) == Upper(s)
  {
    var u := Upper(s);
    forall i | 0 <= i < |s| ensures Upper(u)[i] == u[i] {
      assert !IsLower(u[i]);
    }
  }

  /** Something other than a lone q, such as "quit", is echoed rather than obeyed. */
  lemma QuitWordEchoed()
    ensures ProcessCommand("quit").action == Echo
  {
    var w := "quit";
    assert Trim(w) == w by {
      assert !IsSpace(w[0]) && !IsSpace(w[|w| - 1]);
      TrimUnpadded(w);
    }
    assert |w| == 4;
    QuitIff(w);
  }

  /** Blank input is echoed, with nothing after the prefix. */
  lemma BlankEchoed(rawInput: string)
    requires AllSpace(rawInput)
    ensures ProcessCommand(rawInput) == CommandResult(Echo, EchoPrefix + rawInput)
  {
    TrimPadded(rawInput, "", "");
    assert rawInput + "" + "" == rawInput;
    assert Trim("") == "";
  }
}
