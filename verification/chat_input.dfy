/**
 The line handling the three interactive chatbots share: the input is
 stripped, "exit" in any letter case ends the chat, a blank line re-prompts
 without consulting the model, anything else is a question.
 */
module ChatInput {
  import opened Text
  import opened Sequences

  datatype Command = Quit | Blank | Ask(question: string)

  function Classify(line: string): (c: Command)
    ensures c.Quit? <==> Lower(Strip(line)) == "exit"
    ensures c.Blank? <==> Strip(line) == ""
    ensures c.Ask? ==> c.question == Strip(line) && c.question != "" && Trimmed(c.question)
  {
    var q := Strip(line);
    if Lower(q) == "exit" then Quit
    else if q == "" then Blank
    else Ask(q)
  }

  /** A question never reads "exit" in any letter case. */
  lemma AskIsNotExit(line: string)
    requires Classify(line).Ask?
    ensures Lower(Classify(line).question) != "exit"
  {
  }

  /** What a line of input other than "exit" leads to. */
  datatype Turn<T> = Reprompt | Answered(question: string, reply: T)

  /** The turns of a chat, and whether it ended with "exit" (rather than with the input). */
  datatype Session<T> = Session(turns: seq<Turn<T>>, exited: bool)

  /**
   The `while True` loop over classified input lines from the `base`-th on:
   one turn per command until the first `Quit`; a blank line re-prompts and
   only a question is answered, by `answer(question, line number)`.
   */
  function Run<T>(cmds: seq<Command>, base: nat, answer: (string, nat) -> T): (s: Session<T>)
    ensures |s.turns| <= |cmds|
    ensures forall k :: 0 <= k < |s.turns| ==> !cmds[k].Quit?
    ensures forall k :: 0 <= k < |s.turns| ==> (s.turns[k].Reprompt? <==> cmds[k].Blank?)
    ensures forall k :: 0 <= k < |s.turns| && s.turns[k].Answered? ==>
      cmds[k].Ask? && s.turns[k] == Answered(cmds[k].question, answer(cmds[k].question, base + k))
    ensures s.exited ==> |s.turns| < |cmds| && cmds[|s.turns|].Quit?
    ensures !s.exited ==> |s.turns| == |cmds|
    decreases |cmds|
  {
    if |cmds| == 0 then Session([], false)
    else if cmds[0].Quit? then Session([], true)
    else
      var rest := Run(cmds[1..], base + 1, answer);
      var t := if cmds[0].Blank? then Reprompt else Answered(cmds[0].question, answer(cmds[0].question, base));
      Session([t] + rest.turns, rest.exited)
  }

  /** The chat over raw input lines. */
  function Chat<T>(lines: seq<string>, answer: (string, nat) -> T): (s: Session<T>)
    ensures |s.turns| <= |lines|
    ensures forall k :: 0 <= k < |s.turns| ==> !Classify(lines[k]).Quit?
    ensures forall k :: 0 <= k < |s.turns| ==> (s.turns[k].Reprompt? <==> Classify(lines[k]).Blank?)
    ensures forall k :: 0 <= k < |s.turns| && s.turns[k].Answered? ==>
      s.turns[k] == Answered(Strip(lines[k]), answer(Strip(lines[k]), k))
    ensures s.exited ==> |s.turns| < |lines| && Classify(lines[|s.turns|]).Quit?
    ensures !s.exited ==> |s.turns| == |lines|
  {
    Run(Map(Classify, lines), 0, answer)
  }
}
