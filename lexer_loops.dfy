/** The two scanning loops of the lexer of Compiler.java as written: the
    comment loop of `skip_whitespace` runs while the next character is not a
    newline, and the string loop of `nextToken` runs while it is not a double
    quote. Neither tests for the end of input, where `peek` keeps returning
    `Nul` and `advance` no longer moves the cursor. The comment loop then
    hangs; the string loop keeps appending `Nul` until the Java heap is
    exhausted. */
module LexerLoops {
  import opened Lexing

  /** The read position after n iterations of a loop whose body is one
      `advance`, started at r. */
  function Iterate(src: string, r: nat, n: nat): (r': nat)
    requires r <= |src|
    ensures r <= r' <= |src|
    ensures r' == if r + n <= |src| then r + n else |src|
    decreases n
  {
    if n == 0 then r else Iterate(src, AdvancePos(src, r), n - 1)
  }

  /** As written, a loop `while (peek() != stop) advance();` with no `stop`
      character left in the input is still running after any number of
      iterations: once the cursor reaches the end, `peek` returns `Nul`,
      which is not `stop`, and `advance` does not move. */
  lemma {:induction false} LoopAsWrittenNeverEnds(src: string, r: nat, stop: char, n: nat)
    requires r <= |src| && stop != Nul
    requires forall k :: r <= k < |src| ==> src[k] != stop
    ensures CharAt(src, Iterate(src, r, n)) != stop
    decreases n
  {
    if n > 0 {
      LoopAsWrittenNeverEnds(src, AdvancePos(src, r), stop, n - 1);
    }
  }

  /** A `#` comment with no newline after it: the comment loop as written
      never ends. */
  lemma CommentLoopNeverEnds(src: string, i: nat, n: nat)
    requires i < |src| && src[i] == '#'
    requires forall k :: i <= k < |src| ==> src[k] != '\n'
    ensures CharAt(src, Iterate(src, i, n)) != '\n'
  {
    LoopAsWrittenNeverEnds(src, i, '\n', n);
  }

  /** A string literal with no closing quote: the test of the string loop as
      written, started after the opening quote, never becomes false. Each
      pass of that loop appends one more `Nul` to the string being built, so
      in Java the run does not hang but ends with an `OutOfMemoryError` once
      the buffer can grow no further; that error is not caught and no output
      is written. The growing buffer is not part of this model. */
  lemma StringLoopTestNeverFails(src: string, i: nat, n: nat)
    requires i < |src| && src[i] == '"'
    requires forall k :: i < k < |src| ==> src[k] != '"'
    ensures CharAt(src, Iterate(src, i + 1, n)) != '"'
  {
    LoopAsWrittenNeverEnds(src, i + 1, '"', n);
  }
}
