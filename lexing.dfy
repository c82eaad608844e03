/** The lexer of Compiler.java: a cursor over an immutable source text that
    hands out one token per call.

    The pure functions below say, for a source text and a read position, what
    the lexer does from there; the class `Lexer` is the cursor itself, and each
    of its methods is proved to move the cursor exactly as those functions say. */
module Lexing {
  import opened Tokens

  /** The character `advance` and `peek` return once the input is exhausted. */
  const Nul: char := '\0'

  /** What `peek` sees at position i: the character there, or `Nul` past the end. */
  function CharAt(src: string, i: nat): char {
    if i < |src| then src[i] else Nul
  }

  /** `is_alpha`: ASCII letters only. A letter is never skipped, is none of
      the characters `nextToken` switches on, and so always starts a word. */
  predicate IsAlpha(c: char)
  {
    'a' <= c <= 'z' || 'A' <= c <= 'Z'
  }

  /** The blanks `skip_whitespace` steps over one at a time. */
  predicate IsBlank(c: char) {
    c == ' ' || c == '\t' || c == '\n' || c == '\r'
  }

  /** Characters at which `skip_whitespace` does not stop: blanks and the comment marker. */
  predicate Skippable(c: char) {
    IsBlank(c) || c == '#'
  }

  /** Where `advance` leaves the read position r: one further, except at the
      end of input. */
  function AdvancePos(src: string, r: nat): (r': nat)
    requires r <= |src|
    ensures r <= r' <= |src|
    ensures r' == r <==> r == |src|
  {
    if r < |src| then r + 1 else r
  }

  /** The first position at or after i holding `stop`, or the end of input when
      there is none. It is where a comment (stop = newline) or a string literal
      (stop = double quote) ends. */
  function UntilChar(src: string, i: nat, stop: char): (r: nat)
    requires i <= |src|
    ensures i <= r <= |src|
    ensures forall k :: i <= k < r ==> src[k] != stop
    ensures r < |src| ==> src[r] == stop
    decreases |src| - i
  {
    if i < |src| && src[i] != stop then UntilChar(src, i + 1, stop) else i
  }

  /** The position `skip_whitespace` leaves the cursor at when it starts at i:
      blanks are consumed one by one, and a `#` comment up to, not including,
      the next newline (or to the end of input when no newline follows). */
  function SkipWs(src: string, i: nat): (r: nat)
    requires i <= |src|
    ensures i <= r <= |src|
    ensures !Skippable(CharAt(src, r))
    decreases |src| - i
  {
    if i == |src| then i
    else if IsBlank(src[i]) then SkipWs(src, i + 1)
    else if src[i] == '#' then SkipWs(src, UntilChar(src, i, '\n'))
    else i
  }

  /** The end of the maximal run of letters that starts at i. */
  function WordEnd(src: string, i: nat): (r: nat)
    requires i <= |src|
    ensures i <= r <= |src|
    ensures forall k :: i <= k < r ==> IsAlpha(src[k])
    ensures !IsAlpha(CharAt(src, r))
    decreases |src| - i
  {
    if i < |src| && IsAlpha(src[i]) then WordEnd(src, i + 1) else i
  }

  /** The token a word becomes: the two keywords, and every other word an identifier. */
  function Classify(word: string): (t: Token)
    ensures t.lit == word
    ensures t.kind == Void <==> word == "void"
    ensures t.kind == Printf <==> word == "printf"
    ensures t.kind == Ident <==> word != "void" && word != "printf"
  {
    if word == "void" then Token(Void, word)
    else if word == "printf" then Token(Printf, word)
    else Token(Ident, word)
  }

  /** The token a single consumed character that is not a letter and not a
      double quote becomes. */
  function Symbol(c: char): (t: Token)
    ensures t.kind == Eof <==> c == Nul
    ensures t.kind != Eof ==> t.lit == [c]
    ensures t.kind == Eof ==> t.lit == ""
    ensures t.kind in {LBrace, RBrace, LParen, RParen, Semicolon, Eof, Illegal}
  {
    match c
    case '{' => Token(LBrace, "{")
    case '}' => Token(RBrace, "}")
    case '(' => Token(LParen, "(")
    case ')' => Token(RParen, ")")
    case ';' => Token(Semicolon, ";")
    case '\0' => Token(Eof, "")
    case _ => Token(Illegal, [c])
  }

  /** A token together with the read position after it. */
  datatype Lexed = Lexed(token: Token, next: nat)

  /** What `nextToken` returns, and where it leaves the read position, when it
      is called with the read position at i. */
  function Lex(src: string, i: nat): (r: Lexed)
    requires i <= |src|
    ensures i <= r.next <= |src|
    ensures r.token.kind == Eof ==> r.token.lit == ""
    ensures r.token.kind != Eof ==> i < r.next
    ensures r.next == i ==> r.token.kind == Eof
  {
    LexAt(src, SkipWs(src, i))
  }

  /** The token that starts at position k, once blanks and comments are skipped. */
  function LexAt(src: string, k: nat): (r: Lexed)
    requires k <= |src|
    ensures k <= r.next <= |src|
    ensures r.token.kind == Eof ==> r.token.lit == ""
    ensures r.token.kind != Eof ==> k < r.next
    ensures r.next == k ==> r.token.kind == Eof
  {
    if k == |src| then Lexed(Token(Eof, ""), k)
    else if IsAlpha(src[k]) then
      var e := WordEnd(src, k + 1);
      Lexed(Classify(src[k..e]), e)
    else if src[k] == '"' then
      var q := UntilChar(src, k + 1, '"');
      Lexed(Token(String, src[k + 1..q]), if q < |src| then q + 1 else q)
    else
      Lexed(Symbol(src[k]), k + 1)
  }

  /** The lexer: the source text and its two cursors. `readPos` is the next
      position to read; `pos` is the position of the character read last. */
  class Lexer {
    const src: string
    var readPos: nat
    var pos: nat

    ghost predicate Valid()
      reads this
    {
      readPos <= |src| &&
      pos == if readPos == 0 then 0 else readPos - 1
    }

    constructor (src: string)
      ensures Valid()
      ensures this.src == src && readPos == 0 && pos == 0
    {
      this.src := src;
      readPos := 0;
      pos := 0;
    }

    /** Consumes and returns the next character; at the end of input returns
        `Nul` and leaves the cursors where they are. */
    method Advance() returns (c: char)
      requires Valid()
      modifies this
      ensures Valid()
      ensures c == CharAt(src, old(readPos))
      ensures readPos == AdvancePos(src, old(readPos))
    {
      if readPos >= |src| {
        return Nul;
      }
      pos := readPos;
      readPos := readPos + 1;
      c := src[pos];
    }

    /** Returns the next character without consuming it. */
    method Peek() returns (c: char)
      requires Valid()
      ensures c == CharAt(src, readPos)
    {
      if readPos >= |src| {
        return Nul;
      }
      c := src[readPos];
    }

    /** Steps over blanks and `#` comments. A comment with no newline after it
        ends at the end of input. */
    method SkipWhitespace()
      requires Valid()
      modifies this
      ensures Valid()
      ensures readPos == SkipWs(src, old(readPos))
    {
      while true
        invariant Valid()
        invariant SkipWs(src, readPos) == SkipWs(src, old(readPos))
        decreases |src| - readPos
      {
        var c := Peek();
        if IsBlank(c) {
          var _ := Advance();
        } else if c == '#' {
          ghost var start := readPos;
          var d := Peek();
          while d != '\n' && readPos < |src|
            invariant Valid() && start <= readPos
            invariant d == CharAt(src, readPos)
            invariant UntilChar(src, readPos, '\n') == UntilChar(src, start, '\n')
            decreases |src| - readPos
          {
            var _ := Advance();
            d := Peek();
          }
        } else {
          return;
        }
      }
    }

    /** The letter loop of `nextToken`: having consumed the letter `first` at
        position `readPos - 1`, consumes the rest of the run of letters and
        returns the whole run. */
    method ReadWord(first: char) returns (word: string)
      requires Valid() && 0 < readPos && src[readPos - 1] == first
      modifies this
      ensures Valid()
      ensures readPos == WordEnd(src, old(readPos))
      ensures word == src[old(readPos) - 1..readPos]
    {
      word := [first];
      var d := Peek();
      while IsAlpha(d)
        invariant Valid() && old(readPos) <= readPos
        invariant word == src[old(readPos) - 1..readPos]
        invariant d == CharAt(src, readPos)
        invariant WordEnd(src, readPos) == WordEnd(src, old(readPos))
        decreases |src| - readPos
      {
        var x := Advance();
        word := word + [x];
        d := Peek();
      }
    }

    /** The string-literal loop of `nextToken`: having consumed the opening
        quote, consumes the characters up to the next double quote and then
        that quote, and returns the characters in between. Without a closing
        quote it stops at the end of input. */
    method ReadString() returns (lit: string)
      requires Valid()
      modifies this
      ensures Valid()
      ensures lit == src[old(readPos)..UntilChar(src, old(readPos), '"')]
      ensures readPos == if UntilChar(src, old(readPos), '"') < |src|
                         then UntilChar(src, old(readPos), '"') + 1
                         else |src|
    {
      lit := "";
      var d := Peek();
      while d != '"' && readPos < |src|
        invariant Valid() && old(readPos) <= readPos
        invariant lit == src[old(readPos)..readPos]
        invariant d == CharAt(src, readPos)
        invariant UntilChar(src, readPos, '"') == UntilChar(src, old(readPos), '"')
        decreases |src| - readPos
      {
        var x := Advance();
        lit := lit + [x];
        d := Peek();
      }
      var _ := Advance();
    }

    /** Returns the next token: a word (keyword or identifier), one of the
        punctuation characters, a string literal, end of input, or an illegal
        character. */
    method NextToken() returns (t: Token)
      requires Valid()
      modifies this
      ensures Valid()
      ensures Lexed(t, readPos) == Lex(src, old(readPos))
    {
      SkipWhitespace();
      ghost var k := readPos;
      assert Lex(src, old(readPos)) == LexAt(src, k);
      var c := Advance();
      if IsAlpha(c) {
        var word := ReadWord(c);
        return Classify(word);
      }
      if c == '"' {
        var lit := ReadString();
        return Token(String, lit);
      }
      t := Symbol(c);
    }
  }
}
