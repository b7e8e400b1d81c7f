/**
 * The playground's console: the append-only list of output lines, what one
 * run appends to it, clearing, copying, the line-count badge and the colour a
 * line is drawn in.
 *
 * Running user code is outside the model. A run is given two oracles: the
 * TypeScript transpiler (source text to JavaScript text or an error message)
 * and the evaluator (JavaScript text to the lines it logged and how it ended).
 * The elapsed time, already rounded to whole milliseconds, is a parameter.
 */
module Console {
  import opened Optional
  import opened Text
  import Workspace

  /** What the TypeScript transpiler produced. */
  datatype Transpiled = Emitted(js: string) | TranspileFailed(message: string)

  /** How the evaluated program ended, with the lines it sent to `console.log` / `console.error` in call order. */
  datatype Execution = Returned(logs: seq<string>) | Threw(logs: seq<string>, message: string)

  const Banner: string := "CodeCraft Console v1.0.0"
  const ReadyLine: string := "Ready to run your code..."
  const ClearedLine: string := "Console cleared"
  const NoOutputLine: string := "(no output)"
  const SuccessLine: string := "✓ Code executed successfully"

  /** Only the JavaScript family has a runner. */
  predicate Runnable(lang: string)
  {
    lang == "javascript" || lang == "typescript"
  }

  function RunningLine(lang: string): string
  {
    "> Running " + lang + " code..."
  }

  function UnsupportedMessage(lang: string): string
  {
    "Runner not implemented for " + lang + " yet. Try JavaScript/TypeScript for now."
  }

  function FailureLine(message: string): string
  {
    "✗ " + message
  }

  function TimingLine(elapsed: nat): string
  {
    "  Execution time: " + NatToString(elapsed) + "ms"
  }

  /** The timing line determines the elapsed time it reports. */
  lemma TimingLineInjective(a: nat, b: nat)
    requires TimingLine(a) == TimingLine(b)
    ensures a == b
  {
    var prefix := "  Execution time: ";
    var sa, sb := NatToString(a), NatToString(b);
    assert |sa| == |sb| by {
      assert |TimingLine(a)| == |prefix| + |sa| + 2;
      assert |TimingLine(b)| == |prefix| + |sb| + 2;
    }
    assert sa == TimingLine(a)[|prefix|..|prefix| + |sa|];
    assert sb == TimingLine(b)[|prefix|..|prefix| + |sb|];
    NatToStringInjective(a, b);
  }

  /** What a run appends before anything is executed. */
  function RunHeader(lang: string): seq<string>
  {
    ["", RunningLine(lang)]
  }

  /** The lines appended after a normal completion. */
  function SuccessBlock(logs: seq<string>, elapsed: nat): seq<string>
  {
    (if |logs| > 0 then logs else [NoOutputLine]) + ["", SuccessLine, TimingLine(elapsed)]
  }

  /** The lines appended by the `catch`: the message and the timing, nothing the program logged. */
  function FailureBlock(message: string, elapsed: nat): seq<string>
  {
    [FailureLine(message), "", TimingLine(elapsed)]
  }

  /** The text handed to the evaluator: TypeScript is transpiled first, JavaScript goes as it is. */
  function Program(lang: string, code: string, transpile: string -> Transpiled): Transpiled
  {
    if lang == "typescript" then transpile(code) else Emitted(code)
  }

  /** Everything one press of Run appends to the console, in order. */
  function RunReport(lang: string, code: string, transpile: string -> Transpiled,
                     evaluate: string -> Execution, elapsed: nat): seq<string>
  {
    RunHeader(lang) +
    if !Runnable(lang) then FailureBlock(UnsupportedMessage(lang), elapsed)
    else match Program(lang, code, transpile)
      case TranspileFailed(message) => FailureBlock(message, elapsed)
      case Emitted(js) =>
        match evaluate(js)
        case Returned(logs) => SuccessBlock(logs, elapsed)
        case Threw(_, message) => FailureBlock(message, elapsed)
  }

  /**
   * Every report starts with the blank line and the running line and ends with
   * the timing line; it has the success line before the timing, or it is five
   * lines long with one failure line after the header.
   */
  lemma RunReportShape(lang: string, code: string, transpile: string -> Transpiled,
                       evaluate: string -> Execution, elapsed: nat)
    ensures var report := RunReport(lang, code, transpile, evaluate, elapsed);
      && |report| >= 5 && report[..2] == RunHeader(lang)
      && report[|report| - 1] == TimingLine(elapsed)
      && (report[|report| - 2] == SuccessLine || (|report| == 5 && exists m :: report[2] == FailureLine(m)))
  {
  }

  /** A language without a runner: a fixed report that depends neither on the code nor on either oracle. */
  lemma UnsupportedRun(lang: string, code: string, transpile: string -> Transpiled, evaluate: string -> Execution,
                       code': string, transpile': string -> Transpiled, evaluate': string -> Execution, elapsed: nat)
    requires !Runnable(lang)
    ensures RunReport(lang, code, transpile, evaluate, elapsed)
         == ["", RunningLine(lang), FailureLine(UnsupportedMessage(lang)), "", TimingLine(elapsed)]
    ensures RunReport(lang, code, transpile, evaluate, elapsed) == RunReport(lang, code', transpile', evaluate', elapsed)
  {
  }

  /** A normal completion: every logged line, in order (or the placeholder), then the success and timing annotations. */
  lemma SuccessfulRun(lang: string, code: string, transpile: string -> Transpiled, evaluate: string -> Execution,
                      elapsed: nat, js: string, logs: seq<string>)
    requires Runnable(lang) && Program(lang, code, transpile) == Emitted(js) && evaluate(js) == Returned(logs)
    ensures var report := RunReport(lang, code, transpile, evaluate, elapsed);
      && report[..2] == ["", RunningLine(lang)]
      && (|logs| > 0 ==> report[2..2 + |logs|] == logs && |report| == |logs| + 5)
      && (|logs| == 0 ==> report[2] == NoOutputLine && |report| == 6)
      && report[|report| - 3..] == ["", SuccessLine, TimingLine(elapsed)]
  {
  }

  /** A runtime fault: the report is the failure block alone, whatever the program logged before it. */
  lemma FaultedRun(lang: string, code: string, transpile: string -> Transpiled, evaluate: string -> Execution,
                   elapsed: nat, js: string, logs: seq<string>, message: string)
    requires Runnable(lang) && Program(lang, code, transpile) == Emitted(js) && evaluate(js) == Threw(logs, message)
    ensures RunReport(lang, code, transpile, evaluate, elapsed)
         == ["", RunningLine(lang), FailureLine(message), "", TimingLine(elapsed)]
  {
  }

  /** A transpile error of a TypeScript run: reported like a fault, and the evaluator is never consulted. */
  lemma TranspileFailedRun(code: string, transpile: string -> Transpiled, evaluate: string -> Execution,
                           evaluate': string -> Execution, elapsed: nat, message: string)
    requires transpile(code) == TranspileFailed(message)
    ensures RunReport("typescript", code, transpile, evaluate, elapsed)
         == ["", RunningLine("typescript"), FailureLine(message), "", TimingLine(elapsed)]
    ensures RunReport("typescript", code, transpile, evaluate, elapsed)
         == RunReport("typescript", code, transpile, evaluate', elapsed)
  {
  }

  /** JavaScript is evaluated as written: the transpiler plays no part. */
  lemma JavaScriptSkipsTranspiler(code: string, transpile: string -> Transpiled, transpile': string -> Transpiled,
                                  evaluate: string -> Execution, elapsed: nat)
    ensures RunReport("javascript", code, transpile, evaluate, elapsed)
         == RunReport("javascript", code, transpile', evaluate, elapsed)
  {
  }

  /** The colour class a console line is drawn with, from its leading character. */
  datatype LineStyle = PromptStyle | SuccessStyle | FailureStyle | PlainStyle

  /** The three `startsWith` tests of the output panel; at most one of them can hold. */
  function Classify(line: string): (style: LineStyle)
    ensures style == PromptStyle <==> StartsWith(line, ">")
    ensures style == SuccessStyle <==> StartsWith(line, "✓")
    ensures style == FailureStyle <==> StartsWith(line, "✗")
    ensures style == PlainStyle <==> !StartsWith(line, ">") && !StartsWith(line, "✓") && !StartsWith(line, "✗")
  {
    if StartsWith(line, ">") then PromptStyle
    else if StartsWith(line, "✓") then SuccessStyle
    else if StartsWith(line, "✗") then FailureStyle
    else PlainStyle
  }

  /** The annotations a run writes are drawn as prompt, success, failure and plain lines respectively. */
  lemma AnnotationStyles(lang: string, message: string, elapsed: nat)
    ensures Classify(RunningLine(lang)) == PromptStyle
    ensures Classify(SuccessLine) == SuccessStyle
    ensures Classify(FailureLine(message)) == FailureStyle
    ensures Classify(TimingLine(elapsed)) == PlainStyle
    ensures Classify(NoOutputLine) == PlainStyle && Classify("") == PlainStyle
  {
    assert RunningLine(lang)[..1] == ">";
    assert SuccessLine[..1] == "✓";
    assert FailureLine(message)[..1] == "✗";
    assert TimingLine(elapsed)[..1] == " ";
  }

  /** The console as the playground holds it. */
  class OutputConsole {
    /** The displayed lines, oldest first. */
    var lines: seq<string>
    /** Whether `console.log` / `console.error` are currently redirected into a run's buffer. */
    var capturing: bool

    /** At least the two lines a fresh or cleared console shows, and no capture left installed. */
    ghost predicate Valid()
      reads this
    {
      |lines| >= 2 && !capturing
    }

    constructor ()
      ensures Valid() && lines == [Banner, ReadyLine]
    {
      lines := [Banner, ReadyLine];
      capturing := false;
    }

    /** The line-count badge: every line but the two a fresh console starts with. */
    function LineCount(): (n: int)
      reads this
      ensures Valid() ==> n >= 0
      ensures n + 2 == |lines|
    {
      |lines| - 2
    }

    /** `copyOutput`: the lines joined by newlines; for lines without newlines the copy splits back into them. */
    function Copy(): (text: string)
      reads this
      ensures |lines| >= 1 && (forall k :: 0 <= k < |lines| ==> '\n' !in lines[k]) ==> SplitLines(text) == lines
    {
      var text := Join(lines, "\n");
      assert |lines| >= 1 && (forall k :: 0 <= k < |lines| ==> '\n' !in lines[k]) ==> SplitLines(text) == lines by {
        if |lines| >= 1 && (forall k :: 0 <= k < |lines| ==> '\n' !in lines[k]) {
          SplitJoin(lines);
        }
      }
      text
    }

    /** `clearOutput`: whatever was there, the console shows the cleared marker and a blank line. */
    method Clear()
      modifies this
      ensures Valid() && lines == [ClearedLine, ""]
      ensures LineCount() == 0 && Copy() == ClearedLine + "\n"
    {
      lines := [ClearedLine, ""];
      capturing := false;
      assert lines[1..] == [""];
      assert Join(lines, "\n") == ClearedLine + "\n" + "";
    }

    /**
     * `runCode`: run the editor text in the header picker's language and append
     * the report. Earlier lines are kept as they were.
     */
    method Run(ws: Workspace.State, transpile: string -> Transpiled, evaluate: string -> Execution, elapsed: nat)
      requires Valid()
      modifies this
      ensures Valid()
      ensures lines == old(lines) + RunReport(ws.selectedLanguage, ws.editor, transpile, evaluate, elapsed)
      ensures lines[..|old(lines)|] == old(lines)
    {
      var lang, code := ws.selectedLanguage, ws.editor;
      lines := lines + RunHeader(lang);
      var failure: Option<string> := None;
      var logs: seq<string> := [];
      if !Runnable(lang) {
        failure := Some(UnsupportedMessage(lang));
      } else {
        capturing := true;
        match Program(lang, code, transpile) {
          case TranspileFailed(message) =>
            failure := Some(message);
          case Emitted(js) =>
            var outcome := evaluate(js);
            logs := outcome.logs;
            if outcome.Threw? {
              failure := Some(outcome.message);
            }
        }
        capturing := false;
      }
      var block := match failure
        case None => SuccessBlock(logs, elapsed)
        case Some(message) => FailureBlock(message, elapsed);
      lines := lines + block;
    }
  }

  /** In a synced workspace the run reads the active tab: its language and its text. */
  lemma RunReadsActiveTab(ws: Workspace.State, transpile: string -> Transpiled, evaluate: string -> Execution, elapsed: nat)
    requires Workspace.Synced(ws)
    ensures RunReport(ws.selectedLanguage, ws.editor, transpile, evaluate, elapsed)
         == RunReport(Workspace.Current(ws).language, Workspace.Current(ws).content, transpile, evaluate, elapsed)
  {
  }
}
