/**
 * The sampling orchestrator of `main` and the failure boundary of
 * `generate_one_completion`. The agent call is an oracle: given the round,
 * the task's position and the prompt, it yields a reply or a failure. Rounds
 * and tasks run strictly one after the other, so the run is a plain loop and
 * its result is determined by the oracle.
 */
module Orchestrator {
  import opened Text
  import opened ResponseParser
  import opened PromptBuilder

  /** One benchmark problem: its id (a key of the problem dictionary) and its
      instruction (the problem's `prompt` field). */
  datatype Task = Task(id: string, instruction: string)

  /** What one agent call yields: the reply, or a failure (an exception
      derived from `Exception` raised while the agent runs, which the
      driver catches). */
  datatype Outcome = Ok(reply: string) | Failed

  /** One record of the result set. */
  datatype Sample = Sample(taskId: string, completion: string)

  /** The language-model agent: round, position of the task, prompt. */
  type Agent = (nat, nat, string) -> Outcome

  /** What the loop of `main` sees of one generation attempt: round,
      position of the task, instruction, and the completion it gets back. */
  type Generator = (nat, nat, string) -> string

  /** Task ids are the keys of the problem dictionary, so they are distinct. */
  ghost predicate UniqueIds(tasks: seq<Task>) {
    forall i, j :: 0 <= i < j < |tasks| ==> tasks[i].id != tasks[j].id
  }

  /** One generation attempt: build the prompt, ask the agent, parse the
      reply. A failure is caught and becomes the empty completion. */
  function GenerateOneCompletion(agent: Agent, round: nat, index: nat, instruction: string): (c: string)
    ensures agent(round, index, BuildPrompt(instruction)).Failed? ==> c == ""
    ensures agent(round, index, BuildPrompt(instruction)).Ok? ==>
              c == ParseCode(agent(round, index, BuildPrompt(instruction)).reply)
    ensures Trimmed(c)
  {
    match agent(round, index, BuildPrompt(instruction))
    case Ok(reply) => ParseCode(reply)
    case Failed => ""
  }

  /** An agent that answers with the prompt itself yields the instruction
      stripped of its surrounding whitespace. */
  lemma EchoingAgentCompletion(agent: Agent, round: nat, index: nat, instruction: string)
    requires agent(round, index, BuildPrompt(instruction)) == Ok(BuildPrompt(instruction))
    ensures GenerateOneCompletion(agent, round, index, instruction) == Strip(instruction)
  {
    EchoedPromptParsesToInstruction(instruction);
  }

  /** `generate_one_completion` as the loop of `main` calls it. */
  function Pipeline(agent: Agent): Generator {
    (round: nat, index: nat, instruction: string) => GenerateOneCompletion(agent, round, index, instruction)
  }

  /** `tasks[:limit]` when `limit > 0`, otherwise every task. */
  function Truncate(tasks: seq<Task>, limit: int): (r: seq<Task>)
    ensures limit > 0 ==> |r| == (if limit < |tasks| then limit else |tasks|)
    ensures limit <= 0 ==> r == tasks
    ensures r == tasks[..|r|]
  {
    if 0 < limit < |tasks| then tasks[..limit] else tasks
  }

  /** How many rounds `range(numSamples)` runs. */
  function Rounds(numSamples: int): (n: nat)
    ensures numSamples <= 0 ==> n == 0
    ensures numSamples > 0 ==> n == numSamples
  {
    if numSamples > 0 then numSamples else 0
  }

  /** The attempt for task `i` in round `round`, before filtering. */
  function Attempt(tasks: seq<Task>, gen: Generator, round: nat, i: nat): Sample
    requires i < |tasks|
  {
    Sample(tasks[i].id, gen(round, i, tasks[i].instruction))
  }

  /** The attempts of one round, in task order. */
  function RoundAttempts(tasks: seq<Task>, gen: Generator, round: nat): (a: seq<Sample>)
    ensures |a| == |tasks|
    ensures forall i :: 0 <= i < |tasks| ==> a[i] == Attempt(tasks, gen, round, i)
  {
    seq(|tasks|, i requires 0 <= i < |tasks| => Attempt(tasks, gen, round, i))
  }

  /** The attempts of the first `rounds` rounds, round-major then task
      order. */
  function Attempts(tasks: seq<Task>, gen: Generator, rounds: nat): (a: seq<Sample>)
    ensures |a| == |tasks| * rounds
  {
    if rounds == 0 then []
    else
      assert |tasks| * rounds == |tasks| * (rounds - 1) + |tasks|;
      Attempts(tasks, gen, rounds - 1) + RoundAttempts(tasks, gen, rounds - 1)
  }

  /** The attempt for task `i` in round `r` sits at `r * |tasks| + i`. */
  lemma {:induction false} AttemptPosition(tasks: seq<Task>, gen: Generator, rounds: nat, r: nat, i: nat)
    requires r < rounds && i < |tasks|
    ensures r * |tasks| + i < |Attempts(tasks, gen, rounds)|
    ensures Attempts(tasks, gen, rounds)[r * |tasks| + i] == Attempt(tasks, gen, r, i)
  {
    var prev := Attempts(tasks, gen, rounds - 1);
    assert |prev| == (rounds - 1) * |tasks|;
    if r < rounds - 1 {
      AttemptPosition(tasks, gen, rounds - 1, r, i);
    } else {
      assert r * |tasks| == |prev|;
    }
  }

  /** The non-empty attempts, in their order: `if completion:` before
      `samples.append`. */
  function Kept(s: seq<Sample>): (k: seq<Sample>)
    ensures |k| <= |s|
  {
    if |s| == 0 then []
    else
      var last := s[|s| - 1];
      Kept(s[..|s| - 1]) + (if last.completion != "" then [last] else [])
  }

  /** What is kept: exactly the non-empty attempts. */
  lemma {:induction false} KeptMembers(s: seq<Sample>, x: Sample)
    ensures x in Kept(s) <==> x in s && x.completion != ""
  {
    if |s| > 0 {
      KeptMembers(s[..|s| - 1], x);
      assert s == s[..|s| - 1] + [s[|s| - 1]];
    }
  }

  /** Filtering distributes over concatenation, so order is kept. */
  lemma {:induction false} KeptAppend(a: seq<Sample>, b: seq<Sample>)
    ensures Kept(a + b) == Kept(a) + Kept(b)
    decreases |b|
  {
    if |b| > 0 {
      var last := b[|b| - 1];
      assert (a + b)[..|a + b| - 1] == a + b[..|b| - 1];
      KeptAppend(a, b[..|b| - 1]);
    } else {
      assert a + b == a;
    }
  }

  /** The result set a run must produce: every non-empty attempt of the
      truncated task list, round-major then task order. */
  function Samples(problems: seq<Task>, limit: int, numSamples: int, gen: Generator): (s: seq<Sample>)
    ensures |s| <= |Truncate(problems, limit)| * Rounds(numSamples)
    ensures numSamples <= 0 ==> s == []
  {
    Kept(Attempts(Truncate(problems, limit), gen, Rounds(numSamples)))
  }

  /** `main` without its I/O: truncate, then run the rounds with the real
      generation pipeline. */
  method GenerateSamples(problems: seq<Task>, limit: int, numSamples: int, agent: Agent)
    returns (samples: seq<Sample>)
    ensures samples == Samples(problems, limit, numSamples, Pipeline(agent))
    ensures |samples| <= |Truncate(problems, limit)| * Rounds(numSamples)
    ensures forall x :: x in samples ==> x.completion != ""
    ensures numSamples <= 0 ==> samples == []
  {
    samples := RunGeneration(problems, limit, numSamples, Pipeline(agent));
  }

  /** The loop of `main` for any generator: truncate, then for each round
      generate the round's completions and append the non-empty ones. */
  method RunGeneration(problems: seq<Task>, limit: int, numSamples: int, gen: Generator)
    returns (samples: seq<Sample>)
    ensures samples == Samples(problems, limit, numSamples, gen)
    ensures |samples| <= |Truncate(problems, limit)| * Rounds(numSamples)
    ensures forall x :: x in samples ==> x.completion != ""
    ensures numSamples <= 0 ==> samples == []
  {
    var tasks := Truncate(problems, limit);
    samples := [];
    var round := 0;
    while round < numSamples
      invariant 0 <= round <= Rounds(numSamples)
      invariant samples == Kept(Attempts(tasks, gen, round))
    {
      samples := RunRound(tasks, gen, round, samples);
      KeptAppend(Attempts(tasks, gen, round), RoundAttempts(tasks, gen, round));
      round := round + 1;
    }
    assert round == Rounds(numSamples);
    forall x | x in samples
      ensures x.completion != ""
    {
      KeptMembers(Attempts(tasks, gen, round), x);
    }
  }

  /** One round of `main`'s inner loop: every task in order, the non-empty
      completions appended to `samples0`. */
  method RunRound(tasks: seq<Task>, gen: Generator, round: nat, samples0: seq<Sample>)
    returns (samples: seq<Sample>)
    ensures samples == samples0 + Kept(RoundAttempts(tasks, gen, round))
  {
    ghost var current := RoundAttempts(tasks, gen, round);
    samples := samples0;
    var i := 0;
    while i < |tasks|
      invariant 0 <= i <= |tasks|
      invariant samples == samples0 + Kept(current[..i])
    {
      var completion := gen(round, i, tasks[i].instruction);
      assert current[..i + 1][..i] == current[..i];
      if completion != "" {
        samples := samples + [Sample(tasks[i].id, completion)];
      }
      i := i + 1;
    }
    assert current[..i] == current;
  }

  /** Every attempt comes from one round and one task. */
  lemma {:induction false} AttemptOrigin(tasks: seq<Task>, gen: Generator, rounds: nat, x: Sample)
    returns (r: nat, i: nat)
    requires x in Attempts(tasks, gen, rounds)
    ensures r < rounds && i < |tasks|
    ensures x == Attempt(tasks, gen, r, i)
  {
    var prev := Attempts(tasks, gen, rounds - 1);
    var current := RoundAttempts(tasks, gen, rounds - 1);
    if x in prev {
      r, i := AttemptOrigin(tasks, gen, rounds - 1, x);
    } else {
      assert x in current;
      var j :| 0 <= j < |current| && current[j] == x;
      r, i := rounds - 1, j;
    }
  }

  /** Every sample is the non-empty completion of one task of the
      truncated list in one round. */
  lemma SampleOrigin(problems: seq<Task>, limit: int, numSamples: int, gen: Generator, x: Sample)
    returns (r: nat, i: nat)
    requires x in Samples(problems, limit, numSamples, gen)
    ensures r < Rounds(numSamples) && i < |Truncate(problems, limit)|
    ensures x.taskId == problems[i].id
    ensures x.completion == gen(r, i, problems[i].instruction) && x.completion != ""
  {
    var tasks := Truncate(problems, limit);
    KeptMembers(Attempts(tasks, gen, Rounds(numSamples)), x);
    r, i := AttemptOrigin(tasks, gen, Rounds(numSamples), x);
    assert tasks[i] == problems[i];
  }

  /** No sample carries the id of a task that truncation cut off. */
  lemma SamplesWithinTruncation(problems: seq<Task>, limit: int, numSamples: int, gen: Generator, x: Sample)
    requires UniqueIds(problems)
    requires x in Samples(problems, limit, numSamples, gen)
    ensures forall j :: |Truncate(problems, limit)| <= j < |problems| ==> problems[j].id != x.taskId
  {
    var r, i := SampleOrigin(problems, limit, numSamples, gen, x);
  }

  /** A failed attempt leaves no trace: the samples are those of the
      attempts before it followed by those of the attempts after it. */
  lemma FailedAttemptDropped(tasks: seq<Task>, gen: Generator, rounds: nat, r: nat, i: nat)
    requires r < rounds && i < |tasks|
    requires gen(r, i, tasks[i].instruction) == ""
    ensures r * |tasks| + i < |Attempts(tasks, gen, rounds)|
    ensures var a, k := Attempts(tasks, gen, rounds), r * |tasks| + i;
            Kept(a) == Kept(a[..k]) + Kept(a[k + 1..])
  {
    AttemptPosition(tasks, gen, rounds, r, i);
    KeptSkipsEmpty(Attempts(tasks, gen, rounds), r * |tasks| + i);
  }

  /** Removing an empty attempt from anywhere does not change what is kept. */
  lemma KeptSkipsEmpty(a: seq<Sample>, k: nat)
    requires k < |a| && a[k].completion == ""
    ensures Kept(a) == Kept(a[..k]) + Kept(a[k + 1..])
  {
    var pre, mid, post := a[..k], [a[k]], a[k + 1..];
    assert Kept(pre + mid) == Kept(pre) by {
      assert Kept(mid) == [] by {
        assert mid[..0] == [];
      }
      KeptAppend(pre, mid);
    }
    assert Kept(a) == Kept(pre + mid) + Kept(post) by {
      assert a == pre + mid + post;
      KeptAppend(pre + mid, post);
    }
  }

  /** A task whose every attempt fails has no sample at all, whatever
      happens to the other tasks. */
  lemma FailingTaskAbsent(tasks: seq<Task>, gen: Generator, rounds: nat, i: nat)
    requires UniqueIds(tasks) && i < |tasks|
    requires forall r: nat :: r < rounds ==> gen(r, i, tasks[i].instruction) == ""
    ensures forall x :: x in Kept(Attempts(tasks, gen, rounds)) ==> x.taskId != tasks[i].id
  {
    forall x | x in Kept(Attempts(tasks, gen, rounds))
      ensures x.taskId != tasks[i].id
    {
      KeptMembers(Attempts(tasks, gen, rounds), x);
      var r, j := AttemptOrigin(tasks, gen, rounds, x);
    }
  }

  /** The failure boundary and isolation together: if the agent fails on one
      task in every round, the run has no sample for that task. */
  lemma FailingAgentTaskAbsent(problems: seq<Task>, limit: int, numSamples: int, agent: Agent, i: nat)
    requires UniqueIds(problems) && i < |Truncate(problems, limit)|
    requires forall r: nat :: r < Rounds(numSamples) ==>
               agent(r, i, BuildPrompt(problems[i].instruction)).Failed?
    ensures forall x :: x in Samples(problems, limit, numSamples, Pipeline(agent)) ==>
              x.taskId != problems[i].id
  {
    var tasks := Truncate(problems, limit);
    assert tasks[i] == problems[i];
    assert UniqueIds(tasks);
    FailingTaskAbsent(tasks, Pipeline(agent), Rounds(numSamples), i);
  }

  /** How many samples carry `id`. */
  function CountId(s: seq<Sample>, id: string): nat
  {
    if |s| == 0 then 0
    else CountId(s[..|s| - 1], id) + (if s[|s| - 1].taskId == id then 1 else 0)
  }

  lemma {:induction false} CountIdAppend(a: seq<Sample>, b: seq<Sample>, id: string)
    ensures CountId(a + b, id) == CountId(a, id) + CountId(b, id)
    decreases |b|
  {
    if |b| > 0 {
      assert (a + b)[..|a + b| - 1] == a + b[..|b| - 1];
      CountIdAppend(a, b[..|b| - 1], id);
    } else {
      assert a + b == a;
    }
  }

  /** With distinct ids, each task's id occurs once among the first `n`
      attempts of a round if the task is among them, and not otherwise. */
  lemma {:induction false} CountIdRoundPrefix(tasks: seq<Task>, gen: Generator, round: nat, i: nat, n: nat)
    requires UniqueIds(tasks) && i < |tasks| && n <= |tasks|
    ensures CountId(RoundAttempts(tasks, gen, round)[..n], tasks[i].id) == (if i < n then 1 else 0)
  {
    if n > 0 {
      var a := RoundAttempts(tasks, gen, round);
      assert a[..n][..n - 1] == a[..n - 1];
      CountIdRoundPrefix(tasks, gen, round, i, n - 1);
    }
  }

  /** With distinct ids, each task's id occurs once per round. */
  lemma {:induction false} CountIdAttempts(tasks: seq<Task>, gen: Generator, rounds: nat, i: nat)
    requires UniqueIds(tasks) && i < |tasks|
    ensures CountId(Attempts(tasks, gen, rounds), tasks[i].id) == rounds
  {
    if rounds > 0 {
      var a := RoundAttempts(tasks, gen, rounds - 1);
      CountIdAttempts(tasks, gen, rounds - 1, i);
      CountIdAppend(Attempts(tasks, gen, rounds - 1), a, tasks[i].id);
      CountIdRoundPrefix(tasks, gen, rounds - 1, i, |tasks|);
      assert a[..|tasks|] == a;
    }
  }

  /** Nothing is dropped from a list of non-empty attempts. */
  lemma {:induction false} KeptAll(s: seq<Sample>)
    requires forall j :: 0 <= j < |s| ==> s[j].completion != ""
    ensures Kept(s) == s
  {
    if |s| > 0 {
      KeptAll(s[..|s| - 1]);
      assert s == s[..|s| - 1] + [s[|s| - 1]];
    }
  }

  /** With no failed or empty completion, the run keeps every attempt:
      `|tasks| * rounds` samples, each id exactly `rounds` times. */
  lemma NoFailureVolume(problems: seq<Task>, limit: int, numSamples: int, gen: Generator)
    requires forall r: nat, i: nat :: r < Rounds(numSamples) && i < |Truncate(problems, limit)| ==>
               gen(r, i, problems[i].instruction) != ""
    ensures |Samples(problems, limit, numSamples, gen)| == |Truncate(problems, limit)| * Rounds(numSamples)
    ensures UniqueIds(problems) ==>
              forall i :: 0 <= i < |Truncate(problems, limit)| ==>
                CountId(Samples(problems, limit, numSamples, gen), problems[i].id) == Rounds(numSamples)
  {
    var tasks, rounds := Truncate(problems, limit), Rounds(numSamples);
    var a := Attempts(tasks, gen, rounds);
    forall j | 0 <= j < |a|
      ensures a[j].completion != ""
    {
      var r, i := AttemptOrigin(tasks, gen, rounds, a[j]);
      assert tasks[i] == problems[i];
    }
    KeptAll(a);
    if UniqueIds(problems) {
      assert UniqueIds(tasks);
      forall i | 0 <= i < |tasks|
        ensures CountId(a, problems[i].id) == rounds
      {
        CountIdAttempts(tasks, gen, rounds, i);
        assert tasks[i] == problems[i];
      }
    }
  }
}
