# HumanEval sample generation — a Dafny model

This project models the generation pipeline of the HumanEval benchmark driver
in `benchmark/human-eval/run_humaneval.py`. The driver asks a coding agent
for a completion of every HumanEval problem, once per round. It extracts the
code from each reply and collects the non-empty completions as
`(task_id, completion)` samples.

The model has three pure pieces and one text library:

- `Text` (`text.dfy`) is the text handling the pipeline relies on:
  - `Strip`, which is Python's `str.strip()` over the fixed whitespace set of
    CPython's `str.isspace`;
  - leftmost and rightmost substring search.
- `ResponseParser` (`response_parser.dfy`) is `parse_code`. It spells out what
  the one regular expression `` ```python(.*)``` `` with `re.DOTALL` does under
  `re.search`:
  - The match starts at the first `` ```python ``.
  - Because `.*` is greedy, the match ends at the last `` ``` `` that starts at
    or after the end of that opener.
  - The captured text is stripped.
  - With no match, the whole reply is stripped.
- `PromptBuilder` (`prompt_builder.dfy`) is `PROMPT_TEMPLATE.format`: a fixed
  prefix, then the instruction verbatim, then the suffix ``"\n```."``. Its
  inverse `InstructionOf` recovers the instruction from a prompt.
- `Orchestrator` (`orchestrator.dfy`) covers two pieces of the driver:
  - `generate_one_completion`, where an exception derived from `Exception`
    during the agent call becomes `""`;
  - the loop of `main`: truncation by `limit`, `num_samples_per_task` rounds
    over the tasks in order, and dropping empty completions.

  The agent is a parameter of type `(round, task index, prompt) -> Outcome`,
  where an `Outcome` is `Ok(reply)` or `Failed`. The loop itself runs over a
  `Generator`: any function from `(round, task index, instruction)` to a
  completion. `Pipeline(agent)` is the generator the driver uses.
- `ParserExamples` (`parser_examples.dfy`) proves the parser's behaviour on
  concrete replies, using the general lemmas.

Three behaviours of the pattern are easy to misread. The model follows the
code in each case:

- The language tag `python` is required. A bare `` ``` `` fence does not match,
  and the whole reply is then stripped.
- With two fenced blocks, the captured text runs from the first opener to the
  last closer, so it includes the first block's closing fence and the text
  between the blocks. It is not the first block only
  (`ParserExamples.ParseCodeTwoBlocksExample`).
- `parse_code` is not idempotent in general. It is idempotent when the reply
  has no match, and more generally when its output has no match
  (`ResponseParser.ParseCodeStable`). A reply that wraps a fenced block in a
  second fenced block is parsed to the inner block first and then to its
  contents (`ParserExamples.ParseCodeNotIdempotent`).

## Model

All source paths below are in `benchmark/human-eval/run_humaneval.py`.

| member | source | states |
|---|---|---|
| Text.Strip | benchmark/human-eval/run_humaneval.py:40 | The result has no leading or trailing whitespace. It is the only window of the input with whitespace on both sides of it. It is empty exactly when the input is all whitespace. |
| Text.StripBounds | benchmark/human-eval/run_humaneval.py:40 | Finds the bounds of the window that `strip()` keeps: whitespace before and after it, and no whitespace at either end inside it. |
| Text.StripWindowUnique | benchmark/human-eval/run_humaneval.py:40 | Any two such windows of one string agree, so `strip()` has exactly one answer. |
| Text.StripIdempotent | benchmark/human-eval/run_humaneval.py:40 | Stripping twice is the same as stripping once. |
| Text.StripPadded | benchmark/human-eval/run_humaneval.py:40 | Adding whitespace to either end of a string does not change its strip. |
| Text.StripTrimmed | benchmark/human-eval/run_humaneval.py:40 | A string without surrounding whitespace is its own strip. |
| Text.FindFirst | benchmark/human-eval/run_humaneval.py:38 | Returns the leftmost occurrence of a pattern at or after a position, or none when there is no occurrence there. |
| Text.FindLast | benchmark/human-eval/run_humaneval.py:37-38 | Returns the rightmost occurrence of a pattern at or after a position, or none when there is no occurrence there. This is where the greedy `.*` stops. |
| ResponseParser.SearchResultUnique | benchmark/human-eval/run_humaneval.py:37-38 | The match `re.search` picks, leftmost start and then longest extent, is unique. |
| ResponseParser.Search | benchmark/human-eval/run_humaneval.py:37-38 | Returns that match when the reply has one. Returns none exactly when no `` ```python `` is followed, at or after its end, by `` ``` ``. |
| ResponseParser.ParseCode | benchmark/human-eval/run_humaneval.py:36-40 | Never fails, and its result has no surrounding whitespace. With a match, it is the strip of the text between the first opener and the last fence after it. Without a match, it is the strip of the whole reply. |
| ResponseParser.ParseCodeIdempotentOnFallback | benchmark/human-eval/run_humaneval.py:39-40 | When the reply has no match, parsing twice is the same as parsing once. |
| ResponseParser.ParseCodeStable | benchmark/human-eval/run_humaneval.py:36-40 | When the parser's output has no match, parsing that output again leaves it unchanged. |
| ResponseParser.ParseCodeEnclosed | benchmark/human-eval/run_humaneval.py:36-40 | When the text around one `` ```python `` … `` ``` `` block has no backtick, the result is the strip of the block's body. |
| ResponseParser.ParseCodeSingleBlock | benchmark/human-eval/run_humaneval.py:36-40 | When a reply is a preamble, one `` ```python\n `` block holding trimmed code, and a postamble without backticks, the parser returns exactly that code. |
| ResponseParser.ParseCodeBareBlock | benchmark/human-eval/run_humaneval.py:36-40 | A reply that is just one fenced block of trimmed code parses to that code. |
| ParserExamples.ParseCodeFallbackExample | benchmark/human-eval/run_humaneval.py:39-40 | `"def f(): return 1"` has no fence and is returned unchanged. |
| ParserExamples.ParseCodeExample | benchmark/human-eval/run_humaneval.py:37-40 | A fenced reply between a preamble and a postamble yields `"def f(): return 1"`. |
| ParserExamples.ParseCodeTwoBlocksExample | benchmark/human-eval/run_humaneval.py:37-39 | With two fenced blocks, the result runs from the first opener to the last closer. |
| ParserExamples.ParseCodeNotIdempotent | benchmark/human-eval/run_humaneval.py:36-40 | For a block nested in a block, a second parse changes the result, so the parser is not idempotent in general. |
| PromptBuilder.BuildPrompt | benchmark/human-eval/run_humaneval.py:23-31 | The prompt is the fixed prefix (the introduction directly followed by `` ```python\n ``), then the instruction verbatim, then ``"\n```."``. Its length is the sum of the three. |
| PromptBuilder.InstructionOf | benchmark/human-eval/run_humaneval.py:23-31 | The inverse of the template. When it returns an instruction, building the prompt of that instruction gives back the input. When it answers none, no instruction's prompt is the input. |
| PromptBuilder.PromptRoundTrip | benchmark/human-eval/run_humaneval.py:31 | Reading the instruction back from a built prompt gives the instruction. |
| PromptBuilder.BuildPromptInjective | benchmark/human-eval/run_humaneval.py:31 | Different instructions give different prompts. |
| PromptBuilder.IntroHasNoBacktick | benchmark/human-eval/run_humaneval.py:24 | The introduction sentence contains no backtick, so the template's only fences are the ones around the instruction. |
| PromptBuilder.EchoedPromptParsesToInstruction | benchmark/human-eval/run_humaneval.py:23-40 | Parsing the prompt itself gives back the stripped instruction. The template's fence and the parser's pattern agree. |
| Orchestrator.GenerateOneCompletion | benchmark/human-eval/run_humaneval.py:58-65 | A failed agent call gives `""`. A successful one gives the parse of the reply to the built prompt. The completion never has surrounding whitespace. |
| Orchestrator.EchoingAgentCompletion | benchmark/human-eval/run_humaneval.py:30-33 | An agent that answers with its prompt yields the stripped instruction. |
| Orchestrator.Truncate | benchmark/human-eval/run_humaneval.py:77-78 | When `limit > 0`, keeps the first `min(limit, n)` tasks in order. When `limit <= 0`, keeps all tasks. |
| Orchestrator.Rounds | benchmark/human-eval/run_humaneval.py:82 | `range(num_samples_per_task)` runs `num_samples_per_task` rounds when that is positive and none otherwise. |
| Orchestrator.RoundAttempts | benchmark/human-eval/run_humaneval.py:94-95 | One round makes one attempt per task, in task order, each labelled with its task's id. |
| Orchestrator.Attempts | benchmark/human-eval/run_humaneval.py:82-95 | All rounds make exactly `|tasks| * rounds` attempts. Their round-major order is stated by `AttemptPosition`. |
| Orchestrator.AttemptPosition | benchmark/human-eval/run_humaneval.py:82-95 | The attempt for round `r` and task `i` is at position `r * |tasks| + i`. |
| Orchestrator.AttemptOrigin | benchmark/human-eval/run_humaneval.py:82-95 | Every attempt is the attempt of some round below the round count and some task. |
| Orchestrator.Kept | benchmark/human-eval/run_humaneval.py:97-98 | The filter never lengthens the list. Its exact contents are stated by `KeptMembers` and `KeptAppend`. |
| Orchestrator.KeptMembers | benchmark/human-eval/run_humaneval.py:97-98 | A sample is kept exactly when it was attempted and its completion is non-empty. |
| Orchestrator.KeptAppend | benchmark/human-eval/run_humaneval.py:80-98 | Filtering distributes over concatenation, so the order of the attempts is preserved. |
| Orchestrator.KeptAll | benchmark/human-eval/run_humaneval.py:97-98 | When no attempt is empty, nothing is dropped. |
| Orchestrator.KeptSkipsEmpty | benchmark/human-eval/run_humaneval.py:97-98 | Removing one empty attempt, wherever it is, leaves the kept list unchanged. |
| Orchestrator.RunRound | benchmark/human-eval/run_humaneval.py:94-98 | One pass over the tasks appends exactly the round's non-empty attempts, in task order. |
| Orchestrator.RunGeneration | benchmark/human-eval/run_humaneval.py:74-98 | The loop's sample list is exactly the non-empty attempts of all rounds over the truncated tasks, in round-major then task order. There are at most `|tasks| * rounds` samples, every completion is non-empty, and there are none when `num_samples_per_task <= 0`. |
| Orchestrator.GenerateSamples | benchmark/human-eval/run_humaneval.py:58-98 | The same facts for the driver's own generator: build the prompt, call the agent, parse the reply, and turn a failure into `""`. |
| Orchestrator.Samples | benchmark/human-eval/run_humaneval.py:74-98 | The result set a run must produce: the non-empty attempts of all rounds over the truncated tasks. There are at most `|tasks| * rounds` of them, and none when `num_samples_per_task <= 0`. Their contents and order are stated by `KeptMembers`, `KeptAppend` and `AttemptPosition`. |
| Orchestrator.SampleOrigin | benchmark/human-eval/run_humaneval.py:74-98 | Every sample is the non-empty completion that some round produced for some task of the truncated list, and it carries that task's id. |
| Orchestrator.SamplesWithinTruncation | benchmark/human-eval/run_humaneval.py:75-78 | When task ids are distinct, no sample has the id of a task that truncation cut off. |
| Orchestrator.FailedAttemptDropped | benchmark/human-eval/run_humaneval.py:63-65 | A failed attempt is dropped silently. The samples are those of the attempts before it followed by those after it, so other tasks are unaffected. |
| Orchestrator.FailingTaskAbsent | benchmark/human-eval/run_humaneval.py:94-98 | A task whose attempts are empty in every round has no sample. |
| Orchestrator.FailingAgentTaskAbsent | benchmark/human-eval/run_humaneval.py:58-98 | If the agent fails on one task in every round, the run has no sample for that task. |
| Orchestrator.CountIdAppend | benchmark/human-eval/run_humaneval.py:98 | Counting the samples of one id distributes over concatenation. |
| Orchestrator.CountIdRoundPrefix | benchmark/human-eval/run_humaneval.py:94-95 | When ids are distinct, a task's id occurs once in a round's attempts up to and including that task, and not before it. |
| Orchestrator.CountIdAttempts | benchmark/human-eval/run_humaneval.py:82-95 | When ids are distinct, each task's id occurs once per round among the attempts. |
| Orchestrator.NoFailureVolume | benchmark/human-eval/run_humaneval.py:75-98 | When every completion is non-empty, there are exactly `|tasks| * num_samples_per_task` samples. When ids are also distinct, each task's id occurs exactly `num_samples_per_task` times. |

## Left out

- The agent framework is not modelled. This covers `Role`, `HumanEvalCoder._act`, `Message`, the memory lookup and `_aask`. They call code that is not part of this model. The agent is a parameter returning `Ok(reply)` or `Failed`.
- Raised exceptions are not modelled as such. An exception derived from `Exception` in the agent call is the single outcome `Failed`.
- Errors that derive only from `BaseException` are not modelled. Examples are `KeyboardInterrupt`, `SystemExit` and `asyncio.CancelledError`. The `except Exception` boundary does not catch them, so they abort `main` before `write_jsonl` runs and every sample is lost. The model has no outcome for an aborted run.
- `asyncio` and `await` are not modelled. The driver awaits each call in turn, so the model is a plain sequential loop.
- `read_problems` and `write_jsonl` are not modelled. They read and write files through a library that is not part of this model. The problems are a sequence of tasks, ordered as the dictionary's items are. The samples are the list that would be written. Any JSONL round trip is outside the model.
- Progress bars, logging and the `typer` command line are not modelled. They are user interface and plumbing.
- Only the one fixed regular expression is modelled, not Python's general `re` semantics.
- Unicode whitespace is a fixed set of characters, the one CPython's `str.isspace` accepts. There is no Unicode database.
- Orchestrator.GenerateOneCompletion: the instruction is the problem's `prompt` field passed through the role's message memory. The model passes it directly.
