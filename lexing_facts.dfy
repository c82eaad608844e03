/** Properties of the lexer of Compiler.java, stated on the functions that
    specify `skip_whitespace` and `nextToken`. */
module LexingFacts {
  import opened Tokens
  import opened Lexing

  /** What n successive `nextToken` calls return from read position i: each
      token with the read position after it. */
  function Run(src: string, i: nat, n: nat): (ts: seq<Lexed>)
    requires i <= |src|
    ensures |ts| == n
    decreases n
  {
    if n == 0 then [] else [Lex(src, i)] + Run(src, Lex(src, i).next, n - 1)
  }

  /** Successive `nextToken` calls never move the cursor back and never past
      the end of input. */
  lemma {:induction false} RunWithin(src: string, i: nat, n: nat)
    requires i <= |src|
    ensures forall k :: 0 <= k < n ==> i <= Run(src, i, n)[k].next <= |src|
    decreases n
  {
    if n > 0 {
      var j := Lex(src, i).next;
      RunWithin(src, j, n - 1);
      forall k | 1 <= k < n
        ensures i <= Run(src, i, n)[k].next <= |src|
      {
        assert Run(src, i, n)[k] == Run(src, j, n - 1)[k - 1];
      }
    }
  }

  /** At the end of input `nextToken` returns `Eof` and leaves the cursor in place. */
  lemma LexAtEnd(src: string)
    ensures Lex(src, |src|) == Lexed(Token(Eof, ""), |src|)
  {
  }

  /** Once the input is exhausted, every further `nextToken` call returns `Eof`
      with an empty lexeme. */
  lemma {:induction false} EofForever(src: string, n: nat)
    ensures forall k :: 0 <= k < n ==> Run(src, |src|, n)[k] == Lexed(Token(Eof, ""), |src|)
  {
    if n > 0 {
      LexAtEnd(src);
      EofForever(src, n - 1);
      assert Run(src, |src|, n) == [Lexed(Token(Eof, ""), |src|)] + Run(src, |src|, n - 1);
    }
  }

  /** Where no `#` follows, `skip_whitespace` passes over blanks only. */
  lemma {:induction false} SkipOnlyBlanks(src: string, i: nat)
    requires i <= |src|
    requires forall k :: i <= k < |src| ==> src[k] != '#'
    ensures forall k :: i <= k < SkipWs(src, i) ==> IsBlank(src[k])
    decreases |src| - i
  {
    if i < |src| && IsBlank(src[i]) {
      SkipOnlyBlanks(src, i + 1);
    }
  }

  /** Input made only of blanks is skipped to its end. */
  lemma {:induction false} SkipAllBlanks(src: string, i: nat)
    requires i <= |src|
    requires forall k :: i <= k < |src| ==> IsBlank(src[k])
    ensures SkipWs(src, i) == |src|
    decreases |src| - i
  {
    if i < |src| {
      SkipAllBlanks(src, i + 1);
    }
  }

  /** A `#` comment is consumed up to, not including, the next newline; the
      newline is then skipped as a blank. */
  lemma SkipComment(src: string, i: nat, nl: nat)
    requires i < nl < |src| && src[i] == '#' && src[nl] == '\n'
    requires forall k :: i <= k < nl ==> src[k] != '\n'
    ensures SkipWs(src, i) == SkipWs(src, nl + 1)
  {
    UntilCharAt(src, i, nl, '\n');
  }

  /** A `#` comment with no newline after it runs to the end of input. */
  lemma SkipTrailingComment(src: string, i: nat)
    requires i < |src| && src[i] == '#'
    requires forall k :: i <= k < |src| ==> src[k] != '\n'
    ensures SkipWs(src, i) == |src|
  {
    UntilCharAt(src, i, |src|, '\n');
  }

  /** `UntilChar` is the only position with its two properties. */
  lemma UntilCharAt(src: string, i: nat, j: nat, stop: char)
    requires i <= j <= |src|
    requires forall k :: i <= k < j ==> src[k] != stop
    requires j < |src| ==> src[j] == stop
    ensures UntilChar(src, i, stop) == j
  {
  }

  /** `WordEnd` is the only position with its two properties. */
  lemma WordEndAt(src: string, i: nat, j: nat)
    requires i <= j <= |src|
    requires forall k :: i <= k < j ==> IsAlpha(src[k])
    requires !IsAlpha(CharAt(src, j))
    ensures WordEnd(src, i) == j
  {
  }

  /** A word token is a maximal non-empty run of letters, taken verbatim from
      the source right after the skipped blanks and comments; it is `Void`
      exactly for "void", `Printf` exactly for "printf", and `Ident` otherwise. */
  lemma WordToken(src: string, i: nat)
    requires i <= |src|
    requires Lex(src, i).token.kind in {Ident, Void, Printf}
    ensures var l := Lex(src, i);
            var k := SkipWs(src, i);
            k < l.next && l.token.lit == src[k..l.next]
            && (forall m :: k <= m < l.next ==> IsAlpha(src[m]))
            && !IsAlpha(CharAt(src, l.next))
            && (l.token.kind == Void <==> l.token.lit == "void")
            && (l.token.kind == Printf <==> l.token.lit == "printf")
  {
  }

  /** A one-character token comes from the character after the skipped
      blanks and comments: `{ } ( ) ;` give their own kinds, and every other
      character that starts no other token is `Illegal`. Either way the
      lexeme is that character. */
  lemma SymbolToken(src: string, i: nat)
    requires i <= |src|
    requires Lex(src, i).token.kind in {LBrace, RBrace, LParen, RParen, Semicolon, Illegal}
    ensures var l := Lex(src, i);
            var k := SkipWs(src, i);
            k < |src| && l.next == k + 1 && l.token.lit == [src[k]]
            && (l.token.kind == LBrace <==> src[k] == '{')
            && (l.token.kind == RBrace <==> src[k] == '}')
            && (l.token.kind == LParen <==> src[k] == '(')
            && (l.token.kind == RParen <==> src[k] == ')')
            && (l.token.kind == Semicolon <==> src[k] == ';')
            && (l.token.kind == Illegal <==>
                  !IsAlpha(src[k]) && src[k] !in "{}();\"" && src[k] != Nul)
  {
  }

  /** `Eof` comes either from the end of input, where the cursor stays, or
      from a NUL character in the source, which is consumed. */
  lemma EofToken(src: string, i: nat)
    requires i <= |src|
    requires Lex(src, i).token.kind == Eof
    ensures var l := Lex(src, i);
            var k := SkipWs(src, i);
            l.token.lit == ""
            && ((k == |src| && l.next == k) || (k < |src| && src[k] == Nul && l.next == k + 1))
  {
  }

  /** A string literal's lexeme is exactly the characters between its opening
      quote and the next double quote, with no escape processing; the closing
      quote is consumed. Without a closing quote the lexeme runs to the end of
      input. */
  lemma StringToken(src: string, i: nat)
    requires i <= |src|
    requires Lex(src, i).token.kind == String
    ensures var l := Lex(src, i);
            var k := SkipWs(src, i);
            var s := l.token.lit;
            k < |src| && src[k] == '"'
            && k + 1 + |s| <= |src| && src[k + 1..k + 1 + |s|] == s
            && (forall m :: 0 <= m < |s| ==> s[m] != '"')
            && ((k + 1 + |s| < |src| && src[k + 1 + |s|] == '"' && l.next == k + |s| + 2)
                || (k + 1 + |s| == |src| && l.next == |src|))
  {
    var k := SkipWs(src, i);
    var q := UntilChar(src, k + 1, '"');
    assert Lex(src, i).token.lit == src[k + 1..q];
  }

  /** A blank before a token does not change it. */
  lemma LexAfterBlank(src: string, i: nat)
    requires i < |src| && IsBlank(src[i])
    ensures Lex(src, i) == Lex(src, i + 1)
  {
  }

  /** A run of blanks before a token does not change the token or where it
      ends. */
  lemma {:induction false} LexAfterBlanks(src: string, i: nat, j: nat)
    requires i <= j <= |src| && forall k :: i <= k < j ==> IsBlank(src[k])
    ensures Lex(src, i) == Lex(src, j)
    decreases j - i
  {
    if i < j {
      LexAfterBlank(src, i);
      LexAfterBlanks(src, i + 1, j);
    }
  }

  /** Lexing from i reads the same token as lexing from where the blanks and
      comments after i end. */
  lemma LexAfterSkipped(src: string, i: nat)
    requires i <= |src|
    ensures Lex(src, i) == Lex(src, SkipWs(src, i))
  {
    assert SkipWs(src, SkipWs(src, i)) == SkipWs(src, i);
  }

  /** A letter is never skipped and is none of the characters the symbol
      switch of `nextToken` tests, so a letter always starts a word token. */
  lemma LetterStartsWord(src: string, i: nat)
    requires i < |src| && IsAlpha(src[i])
    ensures !Skippable(src[i]) && src[i] !in "(){};\"\0"
    ensures Lex(src, i).token.kind in {Ident, Void, Printf}
    ensures |Lex(src, i).token.lit| > 0 && Lex(src, i).token.lit[0] == src[i]
  {
    assert SkipWs(src, i) == i;
  }

  /** A word written at position i, followed by a non-letter, is lexed as
      that word. */
  lemma LexWordAt(src: string, i: nat, w: string)
    requires |w| > 0 && forall k :: 0 <= k < |w| ==> IsAlpha(w[k])
    requires i + |w| <= |src| && src[i..i + |w|] == w
    requires !IsAlpha(CharAt(src, i + |w|))
    ensures Lex(src, i) == Lexed(Classify(w), i + |w|)
  {
    assert src[i] == w[0];
    forall k | i + 1 <= k < i + |w|
      ensures IsAlpha(src[k])
    {
      assert src[k] == w[k - i];
    }
    WordEndAt(src, i + 1, i + |w|);
    assert src[i..i + |w|] == w;
  }

  /** A punctuation character at position i is lexed as its own token. */
  lemma LexSymbolAt(src: string, i: nat)
    requires i < |src| && src[i] in "{}();"
    ensures Lex(src, i) == Lexed(Symbol(src[i]), i + 1)
  {
  }

  /** A string literal written at position i, with no double quote inside, is
      lexed as a string token holding exactly its contents. */
  lemma LexStringAt(src: string, i: nat, s: string)
    requires forall k :: 0 <= k < |s| ==> s[k] != '"'
    requires i + |s| + 2 <= |src|
    requires src[i] == '"' && src[i + 1..i + 1 + |s|] == s && src[i + 1 + |s|] == '"'
    ensures Lex(src, i) == Lexed(Token(String, s), i + |s| + 2)
  {
    forall k | i + 1 <= k < i + 1 + |s|
      ensures src[k] != '"'
    {
      assert src[k] == s[k - i - 1];
    }
    UntilCharAt(src, i + 1, i + 1 + |s|, '"');
  }
}
