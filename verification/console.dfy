/**
 The status lines the supervisor prints. Colouring and the printing itself are
 not modelled: a line is an event carrying its data, and the severity it is
 printed at, which chooses its colour.
 */
module Console {
  import opened Wrappers
  import Numerals

  /** The three formatting levels; a line printed without one is left uncoloured. */
  datatype Severity = Good | Warning | Fail

  datatype Event =
    | Running(command: string)   // "Running: <command>"
    | MaxRuntime(timeout: int)   // "Max runtime <timeout>"
    | WillKillAt(deadline: int)  // "Will kill at <deadline> UTC"
    | Remaining(left: int)       // "<left> remaining"
    | KillingChild               // "Timeout reached... killing child."
    | ChildExitedWith(code: int) // "Child has exited with: <code>"

  function SeverityOf(e: Event): Option<Severity> {
    match e
    case Remaining(_) => Some(Warning)
    case KillingChild => Some(Fail)
    case ChildExitedWith(code) => Some(if code == 0 then Good else Fail)
    case _ => None
  }

  const KillNotice: string := "Timeout reached... killing child."
  const ExitPrefix: string := "Child has exited with: "

  /** The final line: the prefix, then the code as `str(code)` writes it. */
  function ExitText(code: int): string {
    ExitPrefix + Numerals.IntToString(code)
  }

  /**
   A reader who greps the final line for "exited with: " reads the code back:
   the text after the prefix is an integer literal for exactly that code.
   */
  lemma ExitTextNamesCode(code: int)
    ensures |ExitText(code)| > |ExitPrefix|
    ensures ExitText(code)[..|ExitPrefix|] == ExitPrefix
    ensures Numerals.ParseInt(ExitText(code)[|ExitPrefix|..]) == Some(code)
  {
    Numerals.ParsePrinted(code);
    assert ExitText(code)[|ExitPrefix|..] == Numerals.IntToString(code);
  }

  /** Two final lines that read the same report the same code. */
  lemma ExitTextInjective(a: int, b: int)
    requires ExitText(a) == ExitText(b)
    ensures a == b
  {
    ExitTextNamesCode(a);
    ExitTextNamesCode(b);
  }

  /**
   The text of a line, where the model renders it. The start-up lines that
   show a `timedelta` or a `datetime`, and the "remaining" lines, carry their
   values as numbers and have no text here.
   */
  function Line(e: Event): Option<string> {
    match e
    case Running(command) => Some("Running: " + command)
    case KillingChild => Some(KillNotice)
    case ChildExitedWith(code) => Some(ExitText(code))
    case _ => None
  }

  /** What a reader of the output takes from a line: the code, if it is the final line. */
  function ReadExitCode(line: string): Option<int> {
    if |line| >= |ExitPrefix| && line[..|ExitPrefix|] == ExitPrefix
    then Numerals.ParseInt(line[|ExitPrefix|..])
    else None
  }

  /**
   Reading the output back: the final line yields exactly the code it was
   printed with, and no other rendered line looks like a final line.
   */
  lemma LinesReadBack(e: Event)
    requires Line(e).Some?
    ensures ReadExitCode(Line(e).value) == (if e.ChildExitedWith? then Some(e.code) else None)
  {
    match e
    case ChildExitedWith(code) =>
      ExitTextNamesCode(code);
    case Running(command) =>
      assert Line(e).value[0] == 'R';
    case KillingChild =>
      assert Line(e).value[0] == 'T';
  }

  /** Only the kill event prints the kill notice. */
  lemma KillNoticeOnlyFromKill(e: Event)
    ensures Line(e) == Some(KillNotice) <==> e == KillingChild
  {
    match e
    case Running(command) =>
      assert Line(e).value[0] != KillNotice[0];
    case ChildExitedWith(code) =>
      assert Line(e).value[0] != KillNotice[0];
    case _ =>
  }

  /** The phrase that tools grep the kill line for. */
  lemma KillPhrase()
    ensures Line(KillingChild).Some? && Line(KillingChild).value[19..32] == "killing child"
  {
    assert Line(KillingChild) == Some(KillNotice);
  }

  /** The phrase that tools grep the final line for, whatever the code. */
  lemma ExitPhrase(code: int)
    ensures Line(ChildExitedWith(code)).Some? && Line(ChildExitedWith(code)).value[10..23] == "exited with: "
  {
    var digits := Numerals.IntToString(code);
    assert Line(ChildExitedWith(code)) == Some(ExitPrefix + digits);
    assert (ExitPrefix + digits)[10..23] == ExitPrefix[10..23] by {
      assert (ExitPrefix + digits)[..|ExitPrefix|] == ExitPrefix;
    }
  }
}
