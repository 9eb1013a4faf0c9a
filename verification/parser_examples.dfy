/**
 * Worked replies for the response parser, each proved from the general
 * lemmas rather than by evaluation. Each reply is a parameter fixed by the
 * precondition and written as the concatenation of its parts (prose, the
 * opening fence and newline, the code, the newline and closing fence,
 * prose), so that the parser is reasoned about, not unrolled on a literal.
 */
module ParserExamples {
  import opened Text
  import opened ResponseParser

  /** A fence-free reply comes back as it was. */
  lemma ParseCodeFallbackExample()
    ensures ParseCode("def f(): return 1") == "def f(): return 1"
  {
    var s := "def f(): return 1";
    assert '`' !in s;
    assert !HasMatch(s) by {
      forall p, q | MatchesAt(s, p, q) ensures false {
        FenceBackticks(s, Opener, p);
      }
    }
    StripTrimmed(s);
  }

  /** `"preamble ```python\ndef f(): return 1\n``` postamble"` parses to
      `"def f(): return 1"`: the prose around the block is dropped, and so is
      the whitespace just inside the fences. */
  lemma ParseCodeExample(rsp: string)
    requires rsp == "preamble " + "```python\n" + "def f(): return 1" + "\n```" + " postamble"
    ensures ParseCode(rsp) == "def f(): return 1"
  {
    ParseCodeSingleBlock(rsp, "preamble ", "def f(): return 1", " postamble");
  }

  /** With two fenced blocks the capture runs from the first opener to the
      last closer, so both blocks and the prose between them come back. */
  lemma ParseCodeTwoBlocksExample(rsp: string)
    requires rsp == "```python\n" + "a = 1\n```\nthen\n```python\nb = 2" + "\n```"
    ensures ParseCode(rsp) == "a = 1\n```\nthen\n```python\nb = 2"
  {
    ParseCodeBareBlock(rsp, "a = 1\n```\nthen\n```python\nb = 2");
  }

  /** Parsing is not idempotent in general: a block nested in a block is
      unwrapped one layer per call, so for any code the doubly wrapped reply
      parses to the singly wrapped one, which parses differently again. */
  lemma ParseCodeNotIdempotent(code: string, inner: string, rsp: string)
    requires Trimmed(code)
    requires inner == "```python\n" + code + "\n```"
    requires rsp == "```python\n" + inner + "\n```"
    ensures ParseCode(rsp) == inner
    ensures ParseCode(ParseCode(rsp)) == code
    ensures ParseCode(ParseCode(rsp)) != ParseCode(rsp)
  {
    WrappedIsTrimmed(code, inner);
    ParseCodeBareBlock(rsp, inner);
    ParseCodeBareBlock(inner, code);
  }

  /** A wrapped block starts and ends with a backtick, so it is trimmed and
      differs from what it wraps. */
  lemma WrappedIsTrimmed(code: string, inner: string)
    requires inner == "```python\n" + code + "\n```"
    ensures Trimmed(inner) && inner != code
  {
    assert inner[0] == '`' && inner[|inner| - 1] == '`';
  }
}
