/**
  The per-user session state of the application and what the script does to
  it: the write-back of the input widgets on every render, the start button
  with its validation, the single agent run under a guaranteed release of
  the running flag, and the reset button.

  The agent run is opaque; its outcome is a parameter, as is today's date.
 */
module Session {
  import opened Wrappers
  import opened AcademicYear

  /**
    What the single blocking agent run yields. `Returned` carries the final
    output (the empty string standing for any output Python treats as
    false); `NoResult` is a run that gives no result object or no final
    output; `Raised` is an exception of class `Exception`, which the
    `except` clause catches, with the text it converts to; `Escaped` is an
    exception outside `Exception` (a keyboard interrupt, a system exit, a
    cancelled task, Streamlit's own stop and rerun signals), which skips the
    `except` clause, passes through the `finally` clause and ends the script.
   */
  datatype RunOutcome = Returned(finalOutput: string) | NoResult | Raised(message: string) | Escaped

  /** A run counts as successful only when it returns a non-empty final output. */
  predicate Succeeded(o: RunOutcome) {
    o.Returned? && o.finalOutput != ""
  }

  const ErrorMarker: string := "エラー"
  const NoResultMessage: string := "エラー: 調査結果を取得できませんでした。"
  const RaisedPrefix: string := "エラーが発生しました: "
  /** The message the coordinator's instructions ask for when the school does not exist. */
  const NotFoundMessage: string := "入力された学校の情報が見つかりませんでした。"
  const SchoolWarning: string := "学校名を入力してください。"
  const YearWarning: string := "年度を指定してください。"

  /**
    The result text a finished run leaves in the session. An escaping
    exception sets none, so the text stays the empty one the run began with.
   */
  function ResultText(o: RunOutcome): (text: string)
    ensures Succeeded(o) ==> text == o.finalOutput
    ensures o.Returned? && o.finalOutput == "" ==> text == NoResultMessage
    ensures o.NoResult? ==> text == NoResultMessage
    ensures o.Raised? ==> RaisedPrefix <= text && text[|RaisedPrefix|..] == o.message
    ensures !Succeeded(o) && !o.Escaped? ==> ErrorMarker <= text && text != NotFoundMessage
    ensures text == "" <==> o.Escaped?
  {
    match o
    case Returned(output) => if output != "" then output else NoResultMessage
    case NoResult => NoResultMessage
    case Raised(message) =>
      assert (RaisedPrefix + message)[0] != NotFoundMessage[0];
      RaisedPrefix + message
    case Escaped => ""
  }

  /** A raised error is told apart by its text from every other failure: never a missing result, never an escape. */
  lemma FailureKindsDistinct(o: RunOutcome, message: string)
    requires !Succeeded(o) && !o.Raised?
    ensures ResultText(o) != ResultText(Raised(message))
  {
    if !o.Escaped? {
      assert ResultText(o)[3] == ':';
      assert ResultText(Raised(message))[3] == 'が';
    }
  }

  /** The message of a raised error can be read back from its result text. */
  lemma RaisedMessageRecoverable(a: string, b: string)
    requires ResultText(Raised(a)) == ResultText(Raised(b))
    ensures a == b
  {
  }

  /** The warning the start button gives instead of running, if any: the school is checked first, then the year. */
  function StartWarning(school: string, yearLabel: string): (w: Option<string>)
    ensures w.None? <==> school != "" && yearLabel != ""
    ensures school == "" ==> w == Some(SchoolWarning)
    ensures school != "" && yearLabel == "" ==> w == Some(YearWarning)
  {
    if school == "" then Some(SchoolWarning)
    else if yearLabel == "" then Some(YearWarning)
    else None
  }

  /** With a non-empty school, the year check never fires in automatic mode or for a year inside the entry bounds. */
  lemma YearWarningUnreachable(school: string, option: YearOption, today: Date, manualYear: int)
    requires school != ""
    requires option == Manual ==> MinManualYear <= manualYear <= MaxManualYear
    ensures StartWarning(school, ResolveLabel(option, today, manualYear)).None?
  {
  }

  /** The five session fields as one value. */
  datatype Fields = Fields(
    targetSchool: string,
    yearOption: YearOption,
    manualYear: int,
    resultText: string,
    isRunning: bool)

  /** The values a new session starts with and reset restores: empty school, automatic year, next calendar year, no result, not running. */
  function Defaults(today: Date): Fields {
    Fields("", Automatic, today.year + 1, "", false)
  }

  /** What the start button did; `Aborted` is a run ended by an escaping exception, which also ends the script. */
  datatype StartEvent = Ignored | Warned(warning: string) | Ran | Aborted

  /** One user interaction that makes the script run again. */
  datatype Click = NoClick | StartClicked | ResetClicked

  class SessionState {
    var targetSchool: string
    var yearOption: YearOption
    var manualYear: int
    var resultText: string
    var isRunning: bool

    function Snapshot(): Fields
      reads this
    {
      Fields(targetSchool, yearOption, manualYear, resultText, isRunning)
    }

    /** The year label this render computes for `today`. */
    function Label(today: Date): string
      reads this
    {
      ResolveLabel(yearOption, today, manualYear)
    }

    /** The first run of the script in a new session, when no key is present yet. */
    constructor (today: Date)
      ensures Snapshot() == Defaults(today)
    {
      targetSchool := "";
      yearOption := Automatic;
      manualYear := today.year + 1;
      resultText := "";
      isRunning := false;
    }

    /**
      The input widgets write their values back into the session. A widget
      disabled by the running flag keeps the current value; the year entry is
      shown, and read, only in manual mode, and gives a year within its bounds.
     */
    method ApplyWidgets(school: string, option: YearOption, enteredYear: int)
      requires MinManualYear <= enteredYear <= MaxManualYear
      modifies this
      ensures resultText == old(resultText) && isRunning == old(isRunning)
      ensures old(isRunning) ==> Snapshot() == old(Snapshot())
      ensures !old(isRunning) ==> targetSchool == school && yearOption == option
      ensures !old(isRunning) ==> manualYear == if option == Manual then enteredYear else old(manualYear)
    {
      if !isRunning {
        targetSchool := school;
        yearOption := option;
        if yearOption == Manual {
          manualYear := enteredYear;
        }
      }
    }

    /** Clears the previous result and raises the running flag just before the run. */
    method BeginRun()
      modifies this
      ensures resultText == "" && isRunning
      ensures targetSchool == old(targetSchool) && yearOption == old(yearOption) && manualYear == old(manualYear)
    {
      resultText := "";
      isRunning := true;
    }

    /**
      Stores what the run gave, unless an exception escapes past the
      `except` clause, then, as the `finally` clause does on every path,
      lowers the running flag.
     */
    method FinishRun(outcome: RunOutcome)
      requires isRunning
      modifies this
      ensures !isRunning
      ensures outcome.Escaped? ==> resultText == old(resultText)
      ensures !outcome.Escaped? ==> resultText == ResultText(outcome)
      ensures targetSchool == old(targetSchool) && yearOption == old(yearOption) && manualYear == old(manualYear)
    {
      if !outcome.Escaped? {
        resultText := ResultText(outcome);
      }
      isRunning := false;
    }

    /**
      The start button. A disabled button does nothing; otherwise the inputs
      are validated and, when they pass, one run happens. The inputs are never
      touched, and the running flag is down again when the action ends.
     */
    method Start(today: Date, outcome: RunOutcome) returns (ev: StartEvent)
      modifies this
      ensures targetSchool == old(targetSchool) && yearOption == old(yearOption) && manualYear == old(manualYear)
      ensures old(isRunning) ==> ev == Ignored && Snapshot() == old(Snapshot())
      ensures !old(isRunning) ==> !isRunning
      ensures !old(isRunning) && StartWarning(old(targetSchool), old(Label(today))).Some? ==>
                ev == Warned(StartWarning(old(targetSchool), old(Label(today))).value)
                && Snapshot() == old(Snapshot())
      ensures !old(isRunning) && StartWarning(old(targetSchool), old(Label(today))).None? ==>
                ev == (if outcome.Escaped? then Aborted else Ran) && resultText == ResultText(outcome)
      ensures !old(isRunning) && StartWarning(old(targetSchool), old(Label(today))).None? && outcome.Escaped? ==>
                resultText == ""
    {
      if isRunning {
        return Ignored;
      }
      var yearLabel := Label(today);
      var warning := StartWarning(targetSchool, yearLabel);
      if warning.Some? {
        return Warned(warning.value);
      }
      BeginRun();
      FinishRun(outcome);
      ev := if outcome.Escaped? then Aborted else Ran;
    }

    /** The reset button: every field back to its default, whatever the state was. */
    method Reset(today: Date)
      modifies this
      ensures Snapshot() == Defaults(today)
    {
      targetSchool := "";
      yearOption := Automatic;
      manualYear := today.year + 1;
      resultText := "";
      isRunning := false;
    }

    /**
      One execution of the whole script for one interaction: the widgets
      write back, then the clicked button acts. The running flag is down at
      the start of every execution and again at its end, so the widgets and
      the start button are never actually rendered disabled.
     */
    method RunScript(today: Date, school: string, option: YearOption, enteredYear: int,
                     click: Click, outcome: RunOutcome) returns (ev: Option<StartEvent>)
      requires MinManualYear <= enteredYear <= MaxManualYear
      requires !isRunning
      modifies this
      ensures !isRunning
      ensures click == ResetClicked ==> ev == None && Snapshot() == Defaults(today)
      ensures click != ResetClicked ==> targetSchool == school && yearOption == option
      ensures click != ResetClicked ==> manualYear == if option == Manual then enteredYear else old(manualYear)
      ensures click == NoClick ==> ev == None && resultText == old(resultText)
      ensures click == StartClicked ==> ev.Some? && ev.value != Ignored
      ensures click == StartClicked && school == "" ==> ev == Some(Warned(SchoolWarning)) && resultText == old(resultText)
      ensures click == StartClicked && school != "" ==>
                ev == Some(if outcome.Escaped? then Aborted else Ran) && resultText == ResultText(outcome)
    {
      ApplyWidgets(school, option, enteredYear);
      ev := None;
      if click == StartClicked {
        if targetSchool != "" {
          YearWarningUnreachable(targetSchool, yearOption, today, manualYear);
        }
        var started := Start(today, outcome);
        ev := Some(started);
      } else if click == ResetClicked {
        Reset(today);
      }
    }
  }
}
