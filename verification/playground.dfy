/** The code playground controller: what `runCode` puts in the output
    panel for each language, and the state record the other buttons act on. */
module Playground {
  import opened Wrappers
  import opened Seqs
  import opened Format

  datatype Language = JavaScript | TypeScript | Html | Css

  /** What constructing and calling the wrapped function does with the
      user's source. `new Function` is not modelled; the outcome of
      evaluating a given source is supplied by the caller.
      - ParseError: construction failed (a syntax error); no user code ran.
      - Escaped: the source closed the wrapper's function and its `try`,
        so code outside the wrapper's own catch made the console calls
        `emissions` and then threw; `message` is what the outer catch
        reports (`err.message` or `String(err)`).
      - Completed: the user code returned `returned` (possibly `Undefined`)
        after making the console calls `emissions`.
      - Threw: the user code made the console calls `emissions`, then threw
        `thrown`, which the wrapper's own catch reports through
        `console.error` before returning undefined. */
  datatype Evaluation =
    | ParseError(message: string)
    | Completed(emissions: seq<Emission>, returned: Value)
    | Threw(emissions: seq<Emission>, thrown: Value)
    | Escaped(emissions: seq<Emission>, message: string)

  const ReturnPrefix := "➡️ Return value: "
  const NoOutputMessage := "🎉 Code executed successfully (no output)"
  const UncaughtPrefix := "🔥 Uncaught error: "
  const HtmlHeader := "📄 HTML Content:"
  const CssHeader := "🎨 CSS Styles:"

  const WelcomeSnippet := "// Welcome to the Code Playground!\n// Try running this code to see the output\n\nfunction greet(name) {\n  return \"Hello, \" + name + \"!\";\n}\n\nconst message = greet(\"Developer\");\nconsole.log(message);\nconsole.log({ timestamp: new Date(), success: true });"
  const ResetSnippet := "// Try me! 🚀\nfunction example() {\n  return \"Hello, world!\";\n}\n\nconsole.log(example());"

  /** Lines of a run that returned: the captured lines, then one return-value
      line when the returned value is not undefined. */
  function ReturnedLines(logs: seq<string>, returned: Value): seq<string>
  {
    if returned.Undefined? then logs
    else logs + [ReturnPrefix + FormatOutput([returned])]
  }

  /** The text shown after a script run: the lines joined by newlines, or the
      fixed message when that join is empty. */
  function Shown(lines: seq<string>): string
  {
    var joined := Join(lines, "\n");
    if joined == "" then NoOutputMessage else joined
  }

  /** The output of a JavaScript or TypeScript run, given what evaluation
      does. A throw is caught inside the wrapper: it becomes one more
      `console.error` call and the return value counts as undefined. */
  function ScriptOutput(ev: Evaluation): (r: string)
    ensures r != ""
    ensures ev.ParseError? ==> r == UncaughtPrefix + ev.message
  {
    match ev
    case ParseError(msg) => Join([UncaughtPrefix + msg], "\n")
    case Completed(es, ret) => Shown(ReturnedLines(CaptureLines(es), ret))
    case Threw(es, err) => Shown(ReturnedLines(CaptureLines(es + [Emission(Error, [err])]), Undefined))
    case Escaped(es, msg) => EscapedText(es, msg)
  }

  /** The outer catch: the lines captured so far, then the uncaught-error
      line, joined by newlines with no fallback message. */
  function EscapedText(es: seq<Emission>, msg: string): (r: string)
    ensures r != ""
  {
    var line := UncaughtPrefix + msg;
    JoinSnoc(CaptureLines(es), line, "\n");
    assert |line| > 0;
    Join(CaptureLines(es) + [line], "\n")
  }

  /** The output of `runCode` for a language; the evaluation outcome is
      consulted only in the script languages. */
  function RunOutput(lang: Language, code: string, ev: Evaluation): (r: string)
    ensures r != ""
    ensures lang == JavaScript || lang == TypeScript ==> r == ScriptOutput(ev)
    ensures lang == Html ==> HtmlHeader <= r
    ensures lang == Css ==> CssHeader <= r
    ensures lang == Html || lang == Css ==>
      |r| >= |code| + 2 && r[|r| - |code|..] == code && r[|r| - |code| - 2..|r| - |code|] == "\n\n"
  {
    match lang
    case JavaScript => ScriptOutput(ev)
    case TypeScript => ScriptOutput(ev)
    case Html => HtmlHeader + "\n\n" + code
    case Css => CssHeader + "\n\n" + code
  }

  /** The controller's state record. `copyTimers` counts the pending
      timers that will clear `showCopied`. */
  datatype Playground = Playground(
    code: string,
    language: Language,
    output: string,
    isExpanded: bool,
    isRunning: bool,
    darkMode: bool,
    showCopied: bool,
    copyTimers: nat)

  /** The state at mount. */
  function Initial(): Playground
  {
    Playground(WelcomeSnippet, JavaScript, "", false, false, true, false, 0)
  }

  /** `runCode` as one transition. When a run is already in progress nothing
      happens; otherwise the output is replaced by the run's output, and the
      running flag, raised for the duration of the run, is down again on
      every path. Nothing but the output changes. */
  function Run(s: Playground, ev: Evaluation): (r: Playground)
    ensures s.isRunning ==> r == s
    ensures !s.isRunning ==> r == s.(output := RunOutput(s.language, s.code, ev))
  {
    if s.isRunning then s
    else
      var running := s.(isRunning := true, output := "");
      running.(output := RunOutput(s.language, s.code, ev), isRunning := false)
  }

  /** The editor's change callback: a missing value becomes "". */
  function EditCode(s: Playground, value: Option<string>): (r: Playground)
    ensures value.Some? ==> r.code == value.value
    ensures value.None? ==> r.code == ""
    ensures r.(code := s.code) == s
  {
    s.(code := value.GetOr(""))
  }

  function ResetCode(s: Playground): (r: Playground)
    ensures r.code == ResetSnippet && r.output == ""
    ensures r.(code := s.code, output := s.output) == s
  {
    s.(code := ResetSnippet, output := "")
  }

  /** Copying raises the indicator and starts one timer; the clipboard write
      is a foreign call and is not modelled. */
  function CopyCode(s: Playground): (r: Playground)
    ensures r.showCopied && r.copyTimers == s.copyTimers + 1
    ensures r.(showCopied := s.showCopied, copyTimers := s.copyTimers) == s
  {
    s.(showCopied := true, copyTimers := s.copyTimers + 1)
  }

  /** One pending copy timer fires and lowers the indicator. */
  function CopyTimerFires(s: Playground): (r: Playground)
    requires s.copyTimers > 0
    ensures !r.showCopied && r.copyTimers == s.copyTimers - 1
    ensures r.(showCopied := s.showCopied, copyTimers := s.copyTimers) == s
  {
    s.(showCopied := false, copyTimers := s.copyTimers - 1)
  }

  function ToggleExpand(s: Playground): (r: Playground)
    ensures r.isExpanded == !s.isExpanded
    ensures r.(isExpanded := s.isExpanded) == s
  {
    s.(isExpanded := !s.isExpanded)
  }

  /** The document-level mousedown listener, installed only while
      expanded: a press outside the playground collapses it. Whether the
      press landed inside is the caller's input. */
  function MouseDown(s: Playground, insidePlayground: bool): (r: Playground)
    ensures s.isExpanded && !insidePlayground ==> !r.isExpanded
    ensures s.isExpanded && !insidePlayground ==> r.(isExpanded := s.isExpanded) == s
    ensures !s.isExpanded || insidePlayground ==> r == s
  {
    if s.isExpanded && !insidePlayground then s.(isExpanded := false) else s
  }

  function ToggleDarkMode(s: Playground): (r: Playground)
    ensures r.darkMode == !s.darkMode
    ensures r.(darkMode := s.darkMode) == s
  {
    s.(darkMode := !s.darkMode)
  }

  /** The language selector. The code and the last output stay as they are. */
  function ChangeLanguage(s: Playground, lang: Language): (r: Playground)
    ensures r.language == lang
    ensures r.(language := s.language) == s
  {
    s.(language := lang)
  }

  /** The output panel is open exactly when there is output. */
  predicate OutputPanelOpen(s: Playground)
  {
    s.output != ""
  }

  /** The sandboxed preview frame: shown in HTML mode when there is output,
      and then fed the current code. */
  function Preview(s: Playground): (r: Option<string>)
    ensures r.Some? <==> s.language == Html && s.output != ""
    ensures r.Some? ==> r.value == s.code
  {
    if s.language == Html && s.output != "" then Some(s.code) else None
  }

  /** Every user action and timer event, as one total step. A timer event
      with no timer pending does nothing. */
  datatype Action =
    | RunCode(ev: Evaluation)
    | Edit(value: Option<string>)
    | Reset
    | Copy
    | CopyTimer
    | Expand
    | Click(insidePlayground: bool)
    | Theme
    | SelectLanguage(lang: Language)

  function Step(s: Playground, a: Action): Playground
  {
    match a
    case RunCode(ev) => Run(s, ev)
    case Edit(v) => EditCode(s, v)
    case Reset => ResetCode(s)
    case Copy => CopyCode(s)
    case CopyTimer => if s.copyTimers > 0 then CopyTimerFires(s) else s
    case Expand => ToggleExpand(s)
    case Click(inside) => MouseDown(s, inside)
    case Theme => ToggleDarkMode(s)
    case SelectLanguage(l) => ChangeLanguage(s, l)
  }

  function Steps(s: Playground, actions: seq<Action>): Playground
    decreases |actions|
  {
    if |actions| == 0 then s else Steps(Step(s, actions[0]), actions[1..])
  }

  /** What holds between events: no run is in progress, and the copy
      indicator is up only while a timer that will clear it is pending. */
  predicate AtRest(s: Playground)
  {
    !s.isRunning && (s.showCopied ==> s.copyTimers > 0)
  }

  lemma StepKeepsAtRest(s: Playground, a: Action)
    requires AtRest(s)
    ensures AtRest(Step(s, a))
  {
  }

  /** From mount, whatever the user does, the running flag is never seen
      raised between events, and the copy indicator always has a pending
      timer that will clear it. */
  lemma {:induction false} AlwaysAtRest(actions: seq<Action>)
    ensures AtRest(Steps(Initial(), actions))
  {
    StepsKeepAtRest(Initial(), actions);
  }

  lemma {:induction false} StepsKeepAtRest(s: Playground, actions: seq<Action>)
    requires AtRest(s)
    ensures AtRest(Steps(s, actions))
    decreases |actions|
  {
    if |actions| > 0 {
      StepKeepsAtRest(s, actions[0]);
      StepsKeepAtRest(Step(s, actions[0]), actions[1..]);
    }
  }

  /** JavaScript and TypeScript take the identical path. */
  lemma ScriptLanguagesAgree(code: string, ev: Evaluation)
    ensures RunOutput(JavaScript, code, ev) == RunOutput(TypeScript, code, ev)
    ensures RunOutput(JavaScript, code, ev) == ScriptOutput(ev)
  {
  }

  /** A completed run shows the captured lines, then one return-value line
      exactly when the returned value is not undefined, all joined by
      newlines; the fixed no-output message replaces the join exactly when
      it is empty, which is when there are no lines or a single empty one. */
  lemma CompletedOutput(es: seq<Emission>, ret: Value)
    ensures var lines := ReturnedLines(CaptureLines(es), ret);
      && |lines| == |es| + (if ret.Undefined? then 0 else 1)
      && lines[..|es|] == CaptureLines(es)
      && (!ret.Undefined? ==> lines[|es|] == ReturnPrefix + FormatOutput([ret]))
      && ScriptOutput(Completed(es, ret)) ==
           if |lines| == 0 || (|lines| == 1 && lines[0] == "") then NoOutputMessage
           else Join(lines, "\n")
  {
    JoinEmptyIff(ReturnedLines(CaptureLines(es), ret), "\n");
  }

  /** A run whose code threw shows the lines emitted before the throw and
      then exactly one line for the wrapper's own `console.error(thrown)`,
      joined by newlines: no return-value line, and never the no-output
      message. */
  lemma ThrewOutput(es: seq<Emission>, err: Value)
    ensures ScriptOutput(Threw(es, err)) == Join(CaptureLines(es) + [LineOf(Emission(Error, [err]))], "\n")
    ensures |es| == 0 ==> ScriptOutput(Threw(es, err)) == LineOf(Emission(Error, [err]))
    ensures |es| > 0 ==>
      ScriptOutput(Threw(es, err)) == Join(CaptureLines(es), "\n") + "\n" + LineOf(Emission(Error, [err]))
  {
    var errLine := LineOf(Emission(Error, [err]));
    ThrewLines(es, err);
    var lines := CaptureLines(es) + [errLine];
    assert lines[|lines| - 1] == errLine;
    PrefixLength(Error);
    ShownLastNonEmpty(lines);
    if |es| > 0 {
      JoinAppend(CaptureLines(es), [errLine], "\n");
    }
  }

  lemma ThrewLines(es: seq<Emission>, err: Value)
    ensures ScriptOutput(Threw(es, err)) == Shown(CaptureLines(es) + [LineOf(Emission(Error, [err]))])
  {
    var all := es + [Emission(Error, [err])];
    assert all[..|all| - 1] == es;
  }

  lemma PrefixLength(c: Channel)
    ensures c != Log ==> |Prefix(c)| > 0
    ensures |LineOf(Emission(c, []))| == |Prefix(c)|
  {
  }

  lemma NoNewlineInPrefixes()
    ensures '\n' !in ReturnPrefix && '\n' !in UncaughtPrefix
  {
  }

  lemma ShownLastNonEmpty(lines: seq<string>)
    requires |lines| > 0 && |lines[|lines| - 1]| > 0
    ensures Shown(lines) == Join(lines, "\n")
  {
    JoinEmptyIff(lines, "\n");
  }

  /** Lines that contain no newline can be read back from a completed run's
      output one by one: one console call is one output line. */
  lemma CompletedLinesReadBack(es: seq<Emission>, ret: Value)
    requires var lines := ReturnedLines(CaptureLines(es), ret);
      |lines| > 0 && !(|lines| == 1 && lines[0] == "")
    requires forall i :: 0 <= i < |es| ==> '\n' !in LineOf(es[i])
    requires !ret.Undefined? ==> '\n' !in FormatOutput([ret])
    ensures Split(ScriptOutput(Completed(es, ret)), '\n') == ReturnedLines(CaptureLines(es), ret)
  {
    var lines := ReturnedLines(CaptureLines(es), ret);
    CompletedOutput(es, ret);
    forall i | 0 <= i < |lines|
      ensures '\n' !in lines[i]
    {
      if i < |es| {
        assert lines[i] == LineOf(es[i]);
      } else {
        assert lines[i] == ReturnPrefix + FormatOutput([ret]);
        NoNewlineInPrefixes();
      }
    }
    SplitJoin(lines, '\n');
  }

  /** A construction failure shows one line, the uncaught-error prefix and
      the message; no user code ran, so nothing else is shown. */
  lemma ParseErrorOutput(msg: string)
    ensures ScriptOutput(ParseError(msg)) == UncaughtPrefix + msg
    ensures '\n' !in msg ==> Split(ScriptOutput(ParseError(msg)), '\n') == [UncaughtPrefix + msg]
  {
    if '\n' !in msg {
      NoNewlineInPrefixes();
      SplitJoin([UncaughtPrefix + msg], '\n');
    }
  }

  /** An error escaping the wrapper keeps the lines logged before it and
      adds one uncaught-error line after them; a construction failure is
      the case with no lines. */
  lemma EscapedOutput(es: seq<Emission>, msg: string)
    ensures |es| == 0 ==> ScriptOutput(Escaped(es, msg)) == UncaughtPrefix + msg
    ensures |es| > 0 ==>
      ScriptOutput(Escaped(es, msg)) == Join(CaptureLines(es), "\n") + "\n" + (UncaughtPrefix + msg)
    ensures ScriptOutput(Escaped([], msg)) == ScriptOutput(ParseError(msg))
  {
    var line := UncaughtPrefix + msg;
    EscapedJoin(es, msg);
    JoinSnoc(CaptureLines(es), line, "\n");
    EscapedJoin([], msg);
    JoinSnoc(CaptureLines([]), line, "\n");
    assert ScriptOutput(ParseError(msg)) == line;
  }

  lemma EscapedJoin(es: seq<Emission>, msg: string)
    ensures ScriptOutput(Escaped(es, msg)) == Join(CaptureLines(es) + [UncaughtPrefix + msg], "\n")
  {
  }

  /** With newline-free lines and message, splitting the output on newlines
      gives back the logged lines and the uncaught-error line. */
  lemma EscapedLinesReadBack(es: seq<Emission>, msg: string)
    requires forall i :: 0 <= i < |es| ==> '\n' !in LineOf(es[i])
    requires '\n' !in msg
    ensures Split(ScriptOutput(Escaped(es, msg)), '\n') == CaptureLines(es) + [UncaughtPrefix + msg]
  {
    var line := UncaughtPrefix + msg;
    NoNewlineInPrefixes();
    assert '\n' !in line;
    LinesNewlineFree(es, line);
    EscapedJoin(es, msg);
    SplitJoin(CaptureLines(es) + [line], '\n');
  }

  lemma LinesNewlineFree(es: seq<Emission>, line: string)
    requires forall i :: 0 <= i < |es| ==> '\n' !in LineOf(es[i])
    requires '\n' !in line
    ensures forall i :: 0 <= i < |CaptureLines(es) + [line]| ==> '\n' !in (CaptureLines(es) + [line])[i]
  {
    var lines := CaptureLines(es) + [line];
    forall i | 0 <= i < |lines|
      ensures '\n' !in lines[i]
    {
      if i < |es| {
        assert lines[i] == LineOf(es[i]);
      }
    }
  }

  /** HTML and CSS are not evaluated: the output is the header, a blank line
      and the code verbatim, whatever the evaluation oracle would say. */
  lemma MarkupPassThrough(lang: Language, code: string, ev1: Evaluation, ev2: Evaluation)
    requires lang == Html || lang == Css
    ensures RunOutput(lang, code, ev1) == RunOutput(lang, code, ev2)
    ensures var header := if lang == Html then HtmlHeader else CssHeader;
      RunOutput(lang, code, ev1)[..|header| + 2] == header + "\n\n"
      && RunOutput(lang, code, ev1)[|header| + 2..] == code
  {
  }

  /** Every run fills the output panel: no path leaves the output empty. */
  lemma RunOpensOutputPanel(s: Playground, ev: Evaluation)
    requires !s.isRunning
    ensures OutputPanelOpen(Run(s, ev))
  {
    match s.language
    case Html =>
      assert |RunOutput(Html, s.code, ev)| >= |HtmlHeader|;
    case Css =>
      assert |RunOutput(Css, s.code, ev)| >= |CssHeader|;
    case _ =>
      match ev
      case ParseError(msg) =>
        ParseErrorOutput(msg);
        assert |UncaughtPrefix + msg| >= |UncaughtPrefix|;
      case Completed(es, ret) =>
      case Threw(es, err) =>
      case Escaped(es, msg) =>
  }

  /** The line array is fresh on every run: the new output depends only on
      the language, the code and the evaluation, not on earlier output. */
  lemma RunForgetsEarlierOutput(s: Playground, old_output: string, ev: Evaluation)
    requires !s.isRunning
    ensures Run(s, ev) == Run(s.(output := old_output), ev).(output := Run(s, ev).output)
    ensures Run(s, ev).output == Run(s.(output := old_output), ev).output
  {
  }

  /** Resetting twice is resetting once. */
  lemma ResetIdempotent(s: Playground)
    ensures ResetCode(ResetCode(s)) == ResetCode(s)
  {
  }

  /** Each toggle undoes itself, and the two toggles commute. */
  lemma TogglesInvolutive(s: Playground)
    ensures ToggleExpand(ToggleExpand(s)) == s
    ensures ToggleDarkMode(ToggleDarkMode(s)) == s
    ensures ToggleExpand(ToggleDarkMode(s)) == ToggleDarkMode(ToggleExpand(s))
  {
  }

  /** Copying, then letting its timer fire, lowers the indicator and
      changes nothing else, whatever other copies are pending. */
  lemma CopyThenTimer(s: Playground)
    ensures !Step(Step(s, Copy), CopyTimer).showCopied
    ensures Step(Step(s, Copy), CopyTimer) == s.(showCopied := false)
  {
  }

  /** The preview frame shows the current code, not the code that was run:
      editing after an HTML run changes what the frame is fed at once. */
  lemma PreviewFollowsEdits(s: Playground, ev: Evaluation, edited: string)
    requires !s.isRunning && s.language == Html
    ensures Preview(Run(s, ev)) == Some(s.code)
    ensures Preview(EditCode(Run(s, ev), Some(edited))) == Some(edited)
  {
    RunOpensOutputPanel(s, ev);
  }

  /** Switching to HTML keeps an earlier script output, so the frame opens
      on the current code without any HTML run. */
  lemma PreviewAfterLanguageSwitch(s: Playground)
    requires s.output != ""
    ensures Preview(ChangeLanguage(s, Html)) == Some(s.code)
    ensures ChangeLanguage(s, Html).output == s.output
  {
  }

  /** console.log("Hello, " + "World!") prints exactly that one line. */
  lemma HelloWorldScenario()
    ensures ScriptOutput(Completed([Emission(Log, [Str("Hello, World!")])], Undefined)) == "Hello, World!"
  {
  }

  /** return 2 + 2 prints one return-value line holding 4. */
  lemma ReturnScenario()
    ensures ScriptOutput(Completed([], Scalar("4"))) == ReturnPrefix + "4"
  {
  }

  /** throw new Error("boom"): one error line carrying the serialisation of
      the Error object. Its own properties are not enumerable, so the
      serialiser yields "{}" and the message text does not appear. */
  lemma ThrowScenario()
    ensures ScriptOutput(Threw([], Object(JsonText("{}"), "Error: boom"))) == "❌ ERROR: {}"
  {
    ThrewOutput([], Object(JsonText("{}"), "Error: boom"));
  }

  /** An empty program prints the no-output message; so does a single
      console.log("") because the joined text is empty. */
  lemma NoOutputScenarios()
    ensures ScriptOutput(Completed([], Undefined)) == NoOutputMessage
    ensures ScriptOutput(Completed([Emission(Log, [Str("")])], Undefined)) == NoOutputMessage
  {
  }

  /** HTML mode with <b>hi</b>: the output carries the markup verbatim and
      the frame is fed exactly that markup. */
  lemma MarkupScenario(s: Playground, ev: Evaluation)
    requires !s.isRunning && s.language == Html && s.code == "<b>hi</b>"
    ensures Run(s, ev).output == HtmlHeader + "\n\n<b>hi</b>"
    ensures Preview(Run(s, ev)) == Some("<b>hi</b>")
  {
  }
}
