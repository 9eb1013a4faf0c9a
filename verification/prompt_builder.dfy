/**
 * The prompt builder: `PROMPT_TEMPLATE.format(instruction=...)` wraps a task's
 * instruction in a fixed template. `str.format` inserts the argument
 * verbatim (braces inside it are not interpreted again), so the prompt is a
 * fixed prefix, the instruction, and a fixed suffix.
 */
module PromptBuilder {
  import opened Wrappers
  import opened Text
  import opened ResponseParser

  /** The instructional sentences that open every prompt. */
  const Intro: string :=
    "You are an AI that only responds " + "with Python code, NOT ENGLISH. " +
    "You will be given a function " + "signature and its docstring " +
    "by the user. Write your full " + "implementation"

  /** The template up to its `{instruction}` placeholder. The template's two
      string pieces are joined with no separator, so the sentence runs
      straight into the opening fence. */
  const Prefix: string := Intro + "```python\n"

  /** The template after its placeholder. */
  const Suffix: string := "\n```."

  /** The prompt for one instruction; the instruction is not validated. */
  function BuildPrompt(instruction: string): (prompt: string)
    ensures |prompt| == |Prefix| + |instruction| + |Suffix|
    ensures prompt[..|Prefix|] == Prefix
    ensures prompt[|Prefix|..|Prefix| + |instruction|] == instruction
    ensures prompt[|Prefix| + |instruction|..] == Suffix
  {
    Prefix + instruction + Suffix
  }

  /** Reads the instruction back out of a prompt: the text between the
      template's prefix and suffix, if the string has that shape. */
  function InstructionOf(prompt: string): (r: Option<string>)
    ensures r.Some? ==> BuildPrompt(r.value) == prompt
    ensures r.None? ==> forall instruction :: BuildPrompt(instruction) != prompt
  {
    if |Prefix| + |Suffix| <= |prompt|
       && prompt[..|Prefix|] == Prefix
       && prompt[|prompt| - |Suffix|..] == Suffix
    then Some(prompt[|Prefix|..|prompt| - |Suffix|])
    else None
  }

  /** The instruction is recovered from its prompt. */
  lemma PromptRoundTrip(instruction: string)
    ensures InstructionOf(BuildPrompt(instruction)) == Some(instruction)
  {
    var p := BuildPrompt(instruction);
    assert p[|p| - |Suffix|..] == Suffix;
  }

  /** Different instructions give different prompts. */
  lemma BuildPromptInjective(i1: string, i2: string)
    requires BuildPrompt(i1) == BuildPrompt(i2)
    ensures i1 == i2
  {
    PromptRoundTrip(i1);
    PromptRoundTrip(i2);
  }

  /** The introduction has no backtick, so the only fences in a prompt are
      the template's own and whatever the instruction brings. */
  lemma IntroHasNoBacktick()
    ensures '`' !in Intro
  {
    OpeningPiecesHaveNoBacktick();
    MiddlePiecesHaveNoBacktick();
    ClosingPiecesHaveNoBacktick();
  }

  /** No backtick in the first two pieces of the introduction. */
  lemma OpeningPiecesHaveNoBacktick()
    ensures '`' !in "You are an AI that only responds " && '`' !in "with Python code, NOT ENGLISH. "
  {
  }

  /** No backtick in the middle two pieces of the introduction. */
  lemma MiddlePiecesHaveNoBacktick()
    ensures '`' !in "You will be given a function " && '`' !in "signature and its docstring "
  {
  }

  /** No backtick in the last two pieces of the introduction. */
  lemma ClosingPiecesHaveNoBacktick()
    ensures '`' !in "by the user. Write your full " && '`' !in "implementation"
  {
  }

  /** A model that merely echoes its prompt yields the stripped instruction:
      the template's fence and the parser's pattern agree. */
  lemma EchoedPromptParsesToInstruction(instruction: string)
    ensures ParseCode(BuildPrompt(instruction)) == Strip(instruction)
  {
    IntroHasNoBacktick();
    assert BuildPrompt(instruction) == Intro + Opener + ("\n" + instruction + "\n") + Fence + ".";
    ParseCodeEnclosed(Intro, "\n" + instruction + "\n", ".");
    assert AllSpace("\n");
    StripPadded("\n", instruction, "\n");
  }
}
