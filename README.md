# School entrance-exam research app: a verified model of its session logic

The application is a single Streamlit script. A user types a school name,
chooses how the target academic year is fixed (computed from today's date,
or typed in as a number between 2000 and 2100) and presses a start button.
One blocking call then runs a coordinator agent, and its final text is
stored as the result. A reset button puts every input back to its default.
Everything the agents do sits inside an external LLM framework. The
deterministic part, modelled here, is:

- the academic-year label `f"{Y}年度"`. In automatic mode Y is the calendar
  year plus one from April on, and the calendar year before April. In manual
  mode Y is the entered year (module `AcademicYear`, with the decimal
  rendering of Python's `str(int)` in module `Decimal`);
- the session state `{target_school, year_option, manual_year, result_text,
  is_running}` as the class `Session.SessionState`. Its methods are the widget
  write-back, the start button (validation, then one run whose outcome
  becomes the result text, with the running flag lowered by the `finally`
  clause on every path, including an exception the `except` clause does not
  catch), the reset button, and one execution of the whole script
  (`RunScript`).

Today's date and the outcome of the agent run are parameters. The outcome
is `Returned(finalOutput)`, `NoResult` (no result object or no final
output), `Raised(message)` (an `Exception`, caught at line 175) or `Escaped`
(an exception outside `Exception`, such as a keyboard interrupt, a system
exit, a cancelled task or Streamlit's stop and rerun signals). An escaping
exception skips lines 169-177, so the result text stays the empty string
set at line 80, while the `finally` clause still lowers the flag.

Two observations on the script, both proved:

- Every widget and the start button pass `disabled=st.session_state.is_running`,
  yet the flag is raised at line 81 only after every widget has been drawn,
  and it is lowered at line 179 before the script ends. So that argument is
  always evaluated with the flag down. `RunScript` states this: it requires
  and ensures `!isRunning`, and in it a start click is never `Ignored`.
- The entry widget bounds the manual year to [2000, 2100] (lines 58-59), yet
  line 64 still tests `if manual_year:`, so a year of 0 would give an empty
  label and the "year missing" warning of line 77. `ResolveLabel` keeps that
  test, and `YearWarningUnreachable` proves that the bounds make it dead.

## Model

| member | source | states |
|---|---|---|
| `Decimal.IntToDecimal` | streamlit_app.py:52 | the rendering of an int is non-empty; it starts with '-' exactly for negative numbers; its digits have no superfluous leading zero |
| `Decimal.ParseOfIntToDecimal` | streamlit_app.py:52 | parsing the decimal rendering of any int gives that int back |
| `Decimal.IntToDecimalOfParse` | streamlit_app.py:52 | every string the parser accepts is exactly the rendering of the number it reads (the other direction of the round trip) |
| `Decimal.IntToDecimalInjective` | streamlit_app.py:52 | distinct numbers never render to the same text |
| `AcademicYear.AcademicYearOf` | streamlit_app.py:45-51 | for every valid date, the academic year Y is the one whose period, from April 1 of Y-1 up to April 1 of Y, contains the date; `AcademicYearIsPeriod` adds that no other year does |
| `AcademicYear.AcademicYearIsPeriod` | streamlit_app.py:45-51 | for every valid date, the computed academic year is Y exactly when the date lies on or after April 1 of Y-1 and before April 1 of Y (both directions) |
| `AcademicYear.AcademicYearBoundary` | streamlit_app.py:47-51 | March 31 of a year gives that year; April 1 gives the next year |
| `AcademicYear.AutomaticLabelIgnoresDay` | streamlit_app.py:45-52 | the automatic label depends only on year and month, not on the day or the manual year |
| `AcademicYear.YearLabel` | streamlit_app.py:52 | every label is longer than its suffix and ends in 年度 |
| `AcademicYear.LabelRoundTrip` | streamlit_app.py:52 | reading the year back out of `YearLabel(y)` gives y |
| `AcademicYear.ParsedLabelIsYearLabel` | streamlit_app.py:52 | any text read as a year label is the label of the year read |
| `AcademicYear.LabelInjective` | streamlit_app.py:52 | two different years never get the same label |
| `AcademicYear.ResolveLabel` | streamlit_app.py:42-66 | automatic mode: the label names the academic year of today. Manual mode with a non-zero year: the label names that year. The label is empty exactly when the mode is manual and the year is 0 |
| `AcademicYear.ManualLabelNonEmpty` | streamlit_app.py:56-65 | a manual year within the entry bounds [2000, 2100] always gives a non-empty label naming that year |
| `AcademicYear.AprilFirstExample` | streamlit_app.py:45-52 | 2025-04-01 gives "2026年度" |
| `AcademicYear.MarchThirtyFirstExample` | streamlit_app.py:45-52 | 2025-03-31 gives "2025年度" |
| `AcademicYear.ManualExample` | streamlit_app.py:56-65 | manual 2030 gives "2030年度" whatever the date |
| `Session.ResultText` | streamlit_app.py:80-177 | a non-empty output is stored as it is. A missing or empty output gives the fixed "no result" message. A caught error gives the error prefix followed by its message. Every caught failure text starts with エラー and differs from the not-found message. The text is empty exactly when the exception escapes the `except` clause, leaving the text cleared at line 80 |
| `Session.FailureKindsDistinct` | streamlit_app.py:171-177 | a raised error never has the same text as any other failure, a missing result or an escaped exception |
| `Session.RaisedMessageRecoverable` | streamlit_app.py:176 | two raised errors with different messages never give the same result text |
| `Session.StartWarning` | streamlit_app.py:74-77 | no warning exactly when both school and label are non-empty. An empty school gives the school warning, which takes precedence. Otherwise an empty label gives the year warning |
| `Session.YearWarningUnreachable` | streamlit_app.py:76-77 | with a non-empty school, the year warning never fires in automatic mode or for a manual year within the entry bounds |
| `Session.SessionState.constructor` | streamlit_app.py:12-21 | a new session holds an empty school, automatic mode, next calendar year, no result and a lowered flag |
| `Session.SessionState.ApplyWidgets` | streamlit_app.py:28-63 | with the flag down, the widget values become the school and the mode, and the entered year becomes the manual year only in manual mode. With the flag up nothing changes. The result and the flag are never touched |
| `Session.SessionState.BeginRun` | streamlit_app.py:80-81 | before the run, the result is cleared and the flag raised; the inputs are unchanged |
| `Session.SessionState.FinishRun` | streamlit_app.py:84-179 | after the run the flag is down, whatever the outcome. A caught outcome stores `ResultText(outcome)`. An escaping exception leaves the result text as it was. The inputs are unchanged |
| `Session.SessionState.Start` | streamlit_app.py:73-179 | the inputs are never changed. A disabled button changes nothing. A failed validation returns its warning and leaves the whole state unchanged. A passed validation runs once and leaves a lowered flag. The result text is `ResultText(outcome)`, which is empty when the exception escapes; that run is reported as `Aborted` |
| `Session.SessionState.Reset` | streamlit_app.py:184-189 | every field equals the new-session defaults, whatever the prior state |
| `Session.SessionState.RunScript` | streamlit_app.py:28-190 | one script execution starts and ends with the flag down. Reset yields the defaults. Without reset, the school and mode are the widget values, and the manual year is the entered year in manual mode and unchanged otherwise. A start click is never ignored: with a school it runs and stores `ResultText(outcome)`, without one it warns and keeps the result |

## Left out

- Widget rendering and display (title, info, warning and error boxes, spinner, result text area and markdown, sidebar): user interface output with no effect on the state. The warnings are modelled only as the returned text.
- The agent roster, the web-search tool, the prompt templates and the coordinator's existence-check / fan-out / fact-check / write plan (lines 86-160): natural-language configuration for an external LLM framework, which interprets the plan. Only the not-found message of line 144 is kept, as a constant that the failure texts are proved to differ from.
- `Runner.run_sync`, `nest_asyncio`, `load_dotenv` and the network: foreign or asynchronous code, replaced by the `RunOutcome` parameter. An exception raised while the agents are built (lines 86-160) is one more `Raised` or `Escaped` outcome.
- What happens after an escaping exception leaves the script (Streamlit's handling of it): outside the script. The model ends the action there with the flag down.
- The wall clock: today's date is a parameter.
- The text of exception objects: `Raised` carries the message as an opaque string.
- A final output that is not a string: treated as text; a falsy one is `Returned("")` or `NoResult`.
- `st.rerun()`: it ends the script run, which is the end of `Start`, `Reset` and `RunScript`.
- The per-key `if key not in st.session_state` tests of lines 12-21 on later reruns: after the first run every key is present and they do nothing; the constructor models the first run.
- The number entry widget rejecting a default outside [2000, 2100] (a `today.year + 1` after 2100): Streamlit library behaviour, not modelled.
- A successful report that itself starts with エラー cannot be told from a failure. The source does not prevent this, so `Session.ResultText` separates failures only from the not-found message.
