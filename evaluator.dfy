/**
 * The two evaluators that judge a changeset: a script, whose exit status 0
 * means good, and an interactive shell session, which is given an rc file
 * defining the commands `good` (exit 69) and `bad` (exit 96).  The exit
 * statuses, the interrupt and the caller's environment are inputs; the
 * temporary rc file lives in a modelled filesystem.
 */
module Evaluator {
  import opened Wrappers
  import opened Strings
  import opened Exceptions

  const GOOD: nat := 69
  const BAD: nat := 96

  /** How an exit status of the interactive session is read. */
  datatype Verdict = Good | Bad | Quit | Unexpected(code: int)

  /** The exit-code protocol: 69 is good, 96 is bad, 0 quits the whole bisection, anything else is an error. */
  function Classify(code: int): (v: Verdict)
    ensures v == Good <==> code == GOOD
    ensures v == Bad <==> code == BAD
    ensures v == Quit <==> code == 0
    ensures v.Unexpected? <==> code != GOOD && code != BAD && code != 0
    ensures v.Unexpected? ==> v.code == code
  {
    if code == GOOD then Good
    else if code == BAD then Bad
    else if code == 0 then Quit
    else Unexpected(code)
  }

  /** What the interactive `eval` returns or raises once the session has exited with `code`. */
  function SessionOutcome(code: int): (r: Outcome<bool>)
    ensures r.Normal? <==> code == GOOD || code == BAD
    ensures r.Normal? ==> (r.value <==> code == GOOD)
    ensures r.Raised? ==> r.exc == if code == 0 then SystemExit(1) else EvaluatorError(code)
  {
    match Classify(code)
    case Good => Normal(true)
    case Bad => Normal(false)
    case Quit => Raised(SystemExit(1))
    case Unexpected(c) => Raised(EvaluatorError(c))
  }

  /** The session outcome is total: a verdict for 69 and 96, `exit(1)` for 0, `EvaluatorError` for the rest. */
  lemma SessionOutcomeCases(code: int)
    ensures SessionOutcome(code) == Normal(true) <==> code == GOOD
    ensures SessionOutcome(code) == Normal(false) <==> code == BAD
    ensures SessionOutcome(code) == Raised(SystemExit(1)) <==> code == 0
    ensures SessionOutcome(code) == Raised(EvaluatorError(code)) <==> code != GOOD && code != BAD && code != 0
  {
  }

  /**
   * `ScriptEvaluator.eval`: the script's return code 0 means good, every
   * other code bad.  The code a script passes with is the one that quits
   * the interactive session, and the interactive `good` code fails a script.
   */
  function ScriptVerdict(code: int): (good: bool)
    ensures good <==> Classify(code) == Quit
    ensures Classify(code) == Good ==> !good
  {
    code == 0
  }

  /**
   * The two protocols disagree: a script that exits like the interactive
   * `good` command is judged bad, and a script that exits 0 is judged good
   * where the interactive session would quit.
   */
  lemma ProtocolsDiffer()
    ensures !ScriptVerdict(GOOD) && ScriptVerdict(0)
    ensures SessionOutcome(GOOD) == Normal(true) && SessionOutcome(0).Raised?
  {
  }

  /**
   * The instruction the rc file echoes: `echo "To mark a changeset, type
   * either 'good' or 'bad'"`.  It is written in short pieces because the
   * verifier reads the characters of short literals only.
   */
  const Prompt: string := "echo \"To mark a" + " changeset, type" + " either 'good' or 'bad'\""

  /** A line of the rc file: its indentation and its text. */
  datatype RcLine = RcLine(indent: nat, text: string)

  /** The opening lines of the rc file: a blank line, then the instruction between two empty `echo`s. */
  function Header(): (lines: seq<RcLine>)
    ensures |lines| == 5
  {
    [RcLine(0, ""), RcLine(8, "echo"), RcLine(8, Prompt), RcLine(8, "echo"), RcLine(0, "")]
  }

  /** The definition of the shell function `name` as `exit code`, followed by a blank line. */
  function Definition(name: string, code: nat): (lines: seq<RcLine>)
    ensures |lines| == 4
  {
    [RcLine(8, FunctionHeader(name)), RcLine(12, "exit " + Decimal(code)), RcLine(8, "}"), RcLine(0, "")]
  }

  /** The lines of the rc file for the exit statuses `good` and `bad`, indented as in the source text. */
  function RcBody(good: nat, bad: nat): (body: seq<RcLine>)
    ensures |body| == 14
  {
    Header() + Definition("good", good) + Definition("bad", bad) + [RcLine(8, "")]
  }

  function Render(line: RcLine): string
  {
    Blanks(line.indent) + line.text
  }

  function RcLines(good: nat, bad: nat): (lines: seq<string>)
    ensures |lines| == 14
  {
    var body := RcBody(good, bad);
    seq(|body|, i requires 0 <= i < |body| => Render(body[i]))
  }

  /**
   * `generate_script`'s text: the lines joined by newlines, with GOOD and BAD
   * filled in.  Splitting it at its newlines gives the lines back, and each
   * line shows its text once the leading blanks are dropped.
   */
  function RcText(): (text: string)
    ensures Split(text, '\n') == RcLines(GOOD, BAD)
    ensures forall i :: 0 <= i < 14 ==> TrimLeft(Split(text, '\n')[i]) == RcBody(GOOD, BAD)[i].text
  {
    RcLinesShowTexts();
    SplitJoin(RcLines(GOOD, BAD), '\n');
    Join(RcLines(GOOD, BAD), '\n')
  }

  /**
   * The exit status a shell function `name` defined in `lines` ends with:
   * a line `function name () {` followed by a line `exit N`, leading blanks
   * ignored.  The first such definition at or after line `k` is found.
   */
  function DefinedExit(lines: seq<string>, name: string, k: nat): Option<nat>
    decreases |lines| - k
  {
    if k + 1 >= |lines| then None
    else if Defines(lines[k], lines[k + 1], name) then Some(ParseDecimal(TrimLeft(lines[k + 1])[5..]))
    else DefinedExit(lines, name, k + 1)
  }

  /** The first line of the definition of the shell function `name`. */
  function FunctionHeader(name: string): string
  {
    "function " + name + " () {"
  }

  /** The two lines `function name () {` and `exit N`. */
  predicate Defines(header: string, body: string, name: string)
  {
    var b := TrimLeft(body);
    TrimLeft(header) == FunctionHeader(name) && StartsWith(b, "exit ") && IsDigits(b[5..])
  }

  /** A text with no newline that does not start with a blank. */
  predicate Plain(text: string)
  {
    '\n' !in text && (text == [] || text[0] != ' ')
  }

  predicate AllPlain(lines: seq<RcLine>)
  {
    forall i :: 0 <= i < |lines| ==> Plain(lines[i].text)
  }

  lemma PromptPlain()
    ensures Plain(Prompt)
  {
  }

  lemma HeaderPlain()
    ensures AllPlain(Header())
  {
    var h := Header();
    PromptPlain();
    assert h[2].text == Prompt;
    forall i | 0 <= i < 5 && i != 2 ensures Plain(h[i].text) {
      assert h[i].text == "" || h[i].text == "echo";
    }
  }

  lemma DefinitionPlain(name: string, code: nat)
    requires '\n' !in name
    ensures AllPlain(Definition(name, code))
  {
    var t := "exit " + Decimal(code);
    assert forall j :: 5 <= j < |t| ==> '0' <= t[j] <= '9';
    assert forall j :: 0 <= j < |t| ==> t[j] != '\n';
    var h := FunctionHeader(name);
    assert h == "function " + (name + " () {");
    assert h[0] == 'f';
  }

  /** Every line text of the rc file is plain. */
  lemma RcBodyPlain(good: nat, bad: nat)
    ensures AllPlain(RcBody(good, bad))
  {
    HeaderPlain();
    DefinitionPlain("good", good);
    DefinitionPlain("bad", bad);
    var a, b, c := Header(), Definition("good", good), Definition("bad", bad);
    PlainConcat(a, b);
    PlainConcat(a + b, c);
    PlainConcat(a + b + c, [RcLine(8, "")]);
  }

  lemma PlainConcat(a: seq<RcLine>, b: seq<RcLine>)
    requires AllPlain(a) && AllPlain(b)
    ensures AllPlain(a + b)
  {
    forall i | 0 <= i < |a + b| ensures Plain((a + b)[i].text) {
      if i >= |a| {
        assert (a + b)[i] == b[i - |a|];
      }
    }
  }

  /** A rendered plain line reads back as its text once leading blanks are dropped, and holds no newline. */
  lemma RenderPlain(line: RcLine)
    requires Plain(line.text)
    ensures TrimLeft(Render(line)) == line.text
    ensures '\n' !in Render(line)
  {
    TrimLeftBlanks(line.indent, line.text);
  }

  /** No line of the rc file holds a newline, and each line shows its text once leading blanks are dropped. */
  lemma RcLinesShowTexts()
    ensures forall i :: 0 <= i < 14 ==> '\n' !in RcLines(GOOD, BAD)[i] && TrimLeft(RcLines(GOOD, BAD)[i]) == RcBody(GOOD, BAD)[i].text
  {
    var body, lines := RcBody(GOOD, BAD), RcLines(GOOD, BAD);
    RcBodyPlain(GOOD, BAD);
    forall i | 0 <= i < 14 ensures '\n' !in lines[i] && TrimLeft(lines[i]) == body[i].text {
      RenderPlain(body[i]);
    }
  }

  /** A definition `function name () {` then `exit N` at line `i`, with none from `k` on before it, is found with that N. */
  lemma DefinitionFound(lines: seq<string>, k: nat, i: nat, name: string, n: nat)
    requires k <= i && i + 1 < |lines|
    requires TrimLeft(lines[i]) == FunctionHeader(name)
    requires TrimLeft(lines[i + 1]) == "exit " + Decimal(n)
    requires forall j :: k <= j < i ==> TrimLeft(lines[j]) != FunctionHeader(name)
    ensures DefinedExit(lines, name, k) == Some(n)
  {
    SkipToDefinition(lines, k, i, name);
    DefinitionAt(lines, i, name, n);
  }

  /** Lines that are not headers of `name` are passed over by the search, however many there are. */
  lemma {:induction false} SkipToDefinition(lines: seq<string>, k: nat, i: nat, name: string)
    requires k <= i && i + 1 < |lines|
    requires forall j :: k <= j < i ==> TrimLeft(lines[j]) != FunctionHeader(name)
    ensures DefinedExit(lines, name, k) == DefinedExit(lines, name, i)
    decreases i - k
  {
    if k < i {
      SkipNonDefinition(lines, k, name);
      assert forall j :: k + 1 <= j < i ==> TrimLeft(lines[j]) != FunctionHeader(name);
      SkipToDefinition(lines, k + 1, i, name);
    }
  }

  /** A line that is not the header of `name` is passed over by the search. */
  lemma SkipNonDefinition(lines: seq<string>, k: nat, name: string)
    requires k + 1 < |lines|
    requires TrimLeft(lines[k]) != FunctionHeader(name)
    ensures DefinedExit(lines, name, k) == DefinedExit(lines, name, k + 1)
  {
    assert !Defines(lines[k], lines[k + 1], name);
  }

  /** A definition of `name` at line `k` ends the search there, with its exit status. */
  lemma DefinitionAt(lines: seq<string>, k: nat, name: string, n: nat)
    requires k + 1 < |lines|
    requires TrimLeft(lines[k]) == FunctionHeader(name)
    requires TrimLeft(lines[k + 1]) == "exit " + Decimal(n)
    ensures DefinedExit(lines, name, k) == Some(n)
  {
    DefinitionHere(lines[k], lines[k + 1], name, n);
  }

  /** The two lines of a definition give its exit status back. */
  lemma DefinitionHere(header: string, body: string, name: string, n: nat)
    requires TrimLeft(header) == FunctionHeader(name)
    requires TrimLeft(body) == "exit " + Decimal(n)
    ensures Defines(header, body, name)
    ensures ParseDecimal(TrimLeft(body)[5..]) == n
  {
    var exitLine := "exit " + Decimal(n);
    assert exitLine[..5] == "exit " && exitLine[5..] == Decimal(n);
    ParseDecimalInverse(n);
  }

  /** The rc lines as the shell reads them: where the two definitions sit, and that no line before each is its header. */
  lemma RcLayout()
    ensures var lines := RcLines(GOOD, BAD);
      TrimLeft(lines[5]) == FunctionHeader("good") && TrimLeft(lines[6]) == "exit " + Decimal(GOOD) &&
      TrimLeft(lines[9]) == FunctionHeader("bad") && TrimLeft(lines[10]) == "exit " + Decimal(BAD) &&
      (forall j :: 0 <= j < 5 ==> TrimLeft(lines[j]) != FunctionHeader("good")) &&
      (forall j :: 0 <= j < 9 ==> TrimLeft(lines[j]) != FunctionHeader("bad"))
  {
    RcLinesShowTexts();
    BodyLayout();
  }

  /** Where the two definitions sit among the rc line texts, and that no text before each is its header. */
  lemma BodyLayout()
    ensures var body := RcBody(GOOD, BAD);
      body[5].text == FunctionHeader("good") && body[6].text == "exit " + Decimal(GOOD) &&
      body[9].text == FunctionHeader("bad") && body[10].text == "exit " + Decimal(BAD) &&
      (forall j :: 0 <= j < 5 ==> body[j].text != FunctionHeader("good")) &&
      (forall j :: 0 <= j < 9 ==> body[j].text != FunctionHeader("bad"))
  {
    var body := RcBody(GOOD, BAD);
    var a, b, c := Header(), Definition("good", GOOD), Definition("bad", BAD);
    assert body == a + b + c + [RcLine(8, "")];
    assert body[..5] == a && body[5..9] == b && body[9..13] == c;
    // The headers differ in length from each other and from every other text before them.
    assert |FunctionHeader("good")| == 18 && |FunctionHeader("bad")| == 17;
    assert |Prompt| == 55;
    assert Decimal(GOOD) == "69";
    forall j | 0 <= j < 9 && j != 5 ensures |body[j].text| != 17 && |body[j].text| != 18 {
      if j < 5 {
        assert body[j] == a[j];
      } else {
        assert body[j] == b[j - 5];
      }
    }
  }

  /**
   * The generated rc file defines `good` as `exit 69` and `bad` as
   * `exit 96`, which the exit-code protocol reads as good and bad.
   */
  lemma RcDefinesVerdicts()
    ensures DefinedExit(Split(RcText(), '\n'), "good", 0) == Some(GOOD)
    ensures DefinedExit(Split(RcText(), '\n'), "bad", 0) == Some(BAD)
    ensures Classify(GOOD) == Good && Classify(BAD) == Bad
  {
    RcLayout();
    var lines := RcLines(GOOD, BAD);
    DefinitionFound(lines, 0, 5, "good", GOOD);
    DefinitionFound(lines, 0, 9, "bad", BAD);
  }
}
