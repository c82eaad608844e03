/** Properties of the generator of Compiler.java on ill-formed input: which
    syntax error each misplaced token causes, and how an error ends the
    whole translation. */
module TranslationFacts {
  import opened Tokens
  import opened Lexing
  import opened LexingFacts
  import opened Translation

  /** A statement cannot start with punctuation other than `}`, with a string
      literal or with an illegal character: the error names that token. */
  lemma UnhandledStatement(src: string, i: nat)
    requires i <= |src|
    requires Lex(src, i).token.kind in {LParen, RParen, LBrace, Semicolon, String, Illegal}
    ensures Statement(src, i) == Fail(Unhandled(Lex(src, i).token))
  {
  }

  /** A character that starts no statement, written at position i, is an
      error naming the one-character token it becomes. */
  lemma UnhandledCharacter(src: string, i: nat)
    requires i < |src|
    requires !IsAlpha(src[i]) && !Skippable(src[i]) && src[i] !in "}\"" && src[i] != Nul
    ensures Statement(src, i) == Fail(Unhandled(Token(Symbol(src[i]).kind, [src[i]])))
  {
    assert SkipWs(src, i) == i;
    UnhandledStatement(src, i);
  }

  /** `void` followed directly by punctuation, where the name should be. */
  lemma VoidWithoutName(src: string, i: nat)
    requires i + 5 <= |src| && src[i..i + 4] == "void" && src[i + 4] in "{}();"
    ensures Statement(src, i) == Fail(ExpectedIdentAfterVoid)
  {
    LexWordAt(src, i, "void");
    LexSymbolAt(src, i + 4);
  }

  /** A name followed directly by punctuation other than `(` is a call whose
      `(` is missing. */
  lemma CallWithoutParen(src: string, i: nat, name: string)
    requires |name| > 0 && (forall k :: 0 <= k < |name| ==> IsAlpha(name[k]))
    requires name != "void" && name != "printf"
    requires i + |name| < |src| && src[i..i + |name|] == name && src[i + |name|] in "{});"
    ensures Statement(src, i) == Fail(ExpectedLParen)
  {
    var n := |name|;
    assert Lex(src, i).token.kind == Ident && Lex(src, i).next == i + n
        && Lex(src, i + n).token.kind != LParen by {
      LexWordAt(src, i, name);
      LexSymbolAt(src, i + n);
    }
    CallNeedsParen(src, i);
  }

  /** An identifier not followed by `(` is a call whose `(` is missing. */
  lemma CallNeedsParen(src: string, i: nat)
    requires i <= |src| && Lex(src, i).token.kind == Ident
    requires Lex(src, Lex(src, i).next).token.kind != LParen
    ensures Statement(src, i) == Fail(ExpectedLParen)
  {
  }

  /** `printf(` followed directly by punctuation instead of a string literal. */
  lemma PrintfWithoutString(src: string, i: nat)
    requires i + 8 <= |src| && src[i..i + 6] == "printf" && src[i + 6] == '(' && src[i + 7] in "{}();"
    ensures Statement(src, i) == Fail(ExpectedString)
  {
    LexWordAt(src, i, "printf");
    LexSymbolAt(src, i + 6);
    LexSymbolAt(src, i + 7);
  }

  /** Blanks and comments before a statement do not change what it does:
      the statement at i is the one at the first position that is neither. */
  lemma StatementAfterSkipped(src: string, i: nat)
    requires i <= |src|
    ensures Statement(src, i) == Statement(src, SkipWs(src, i))
  {
    LexAfterSkipped(src, i);
  }

  /** Blanks and comments before a block do not change what it does. */
  lemma BlockAfterSkipped(src: string, i: nat)
    requires i <= |src|
    ensures Block(src, i) == Block(src, SkipWs(src, i))
  {
    StatementAfterSkipped(src, i);
  }

  /** A syntax error ends the block it occurs in, with that error. */
  lemma FailAbortsBlock(src: string, i: nat, e: SyntaxError)
    requires i <= |src| && Statement(src, i) == Fail(e)
    ensures Block(src, i) == Abort(e)
  {
  }

  /** An error in a later statement aborts the whole block: the text of the
      statements before it is not part of any successful outcome. */
  lemma LaterFailAbortsBlock(src: string, i: nat, s: string, j: nat, e: SyntaxError)
    requires i <= |src| && Statement(src, i) == Emit(s, j)
    requires j <= |src| && Block(src, j) == Abort(e)
    ensures Block(src, i) == Abort(e)
  {
  }

  /** An error in the body of a declaration aborts the declaration. */
  lemma BodyFailAbortsDeclaration(src: string, i: nat, p: nat, e: SyntaxError)
    requires i <= |src| && Lex(src, i).token.kind == Ident
    requires Lex(src, i).next <= |src| && Lex(src, Lex(src, i).next).token.kind == LParen
    requires Lex(src, Lex(src, i).next).next <= |src|
    requires Lex(src, Lex(src, Lex(src, i).next).next).token.kind == RParen
    requires Lex(src, Lex(src, Lex(src, i).next).next).next <= |src|
    requires Lex(src, Lex(src, Lex(src, Lex(src, i).next).next).next) == Lexed(Token(LBrace, "{"), p)
    requires p <= |src| && Block(src, p) == Abort(e)
    ensures Declaration(src, i) == Abort(e)
  {
  }

  /** The translation fails exactly with the first error of the top-level block. */
  lemma CompileOfAbort(src: string, e: SyntaxError)
    requires Block(src, 0) == Abort(e)
    ensures Compile(src) == Err(e)
  {
  }

  // ---------------------------------------------------------------------
  // The error of each statement form: the first follower token of the
  // wrong kind decides it.
  // ---------------------------------------------------------------------

  /** The index of the first token whose kind is not the wanted one, or the
      number of tokens when all match. */
  function FirstMismatch(ts: seq<Lexed>, want: seq<TokenKind>): (m: nat)
    requires |ts| == |want|
    ensures m <= |want|
    ensures forall k :: 0 <= k < m ==> ts[k].token.kind == want[k]
    ensures m < |want| ==> ts[m].token.kind != want[m]
    decreases |want|
  {
    if want == [] then 0
    else if ts[0].token.kind != want[0] then 0
    else 1 + FirstMismatch(ts[1..], want[1..])
  }

  /** The tokens a declaration needs after `void`, and the error for each. */
  const DeclShape: seq<TokenKind> := [Ident, LParen, RParen, LBrace]
  const DeclErrors: seq<SyntaxError> :=
    [ExpectedIdentAfterVoid, ExpectedLParen, ExpectedRParen, ExpectedLBrace]

  /** The tokens a call needs after its name, and the error for each. */
  const CallShape: seq<TokenKind> := [LParen, RParen, Semicolon]
  const CallErrors: seq<SyntaxError> := [ExpectedLParen, ExpectedRParen, ExpectedSemicolon]

  /** The tokens a `printf` needs after the keyword, and the error for each. */
  const PrintShape: seq<TokenKind> := [LParen, String, RParen, Semicolon]
  const PrintErrors: seq<SyntaxError> :=
    [ExpectedLParen, ExpectedString, ExpectedRParen, ExpectedSemicolon]

  /** Five tokens from position i, one by one. */
  lemma Run5(src: string, i: nat)
    requires i <= |src|
    ensures var a := Lex(src, i); var b := Lex(src, a.next); var c := Lex(src, b.next);
      var d := Lex(src, c.next); var e := Lex(src, d.next);
      Run(src, i, 5) == [a, b, c, d, e]
  {
    var a := Lex(src, i);
    var b := Lex(src, a.next);
    var c := Lex(src, b.next);
    var d := Lex(src, c.next);
    var e := Lex(src, d.next);
    assert Run(src, d.next, 1) == [e];
    assert Run(src, c.next, 2) == [d, e];
    assert Run(src, b.next, 3) == [c, d, e];
    assert Run(src, a.next, 4) == [b, c, d, e];
  }

  /** Four tokens from position i, one by one. */
  lemma Run4(src: string, i: nat)
    requires i <= |src|
    ensures var a := Lex(src, i); var b := Lex(src, a.next); var c := Lex(src, b.next);
      var d := Lex(src, c.next);
      Run(src, i, 4) == [a, b, c, d]
  {
    var a := Lex(src, i);
    var b := Lex(src, a.next);
    var c := Lex(src, b.next);
    var d := Lex(src, c.next);
    assert Run(src, c.next, 1) == [d];
    assert Run(src, b.next, 2) == [c, d];
    assert Run(src, a.next, 3) == [b, c, d];
  }

  /** A declaration is a syntax error exactly when one of the four tokens
      after `void` has the wrong kind, and the first such token names the
      error; with all four in place it fails exactly when its body does. */
  lemma DeclarationOutcome(src: string, i: nat)
    requires i <= |src| && Lex(src, i).token.kind == Void
    ensures var ts := Run(src, i, 5); var m := FirstMismatch(ts[1..], DeclShape);
      (m < 4 ==> Statement(src, i) == Fail(DeclErrors[m]))
      && (m == 4 ==> (Statement(src, i).Fail? <==> Block(src, ts[4].next).Abort?))
      && (m == 4 ==>
            Statement(src, i)
            == Block(src, ts[4].next).Enclose(MethodHeader(ts[1].token.lit) + Limits, Epilogue).AsStep())
  {
    Run5(src, i);
  }

  /** A call is a syntax error exactly when one of `(`, `)`, `;` is missing
      after the name, the first missing one naming the error; otherwise it
      emits the `invokestatic` of that name and ends after the `;`. */
  lemma CallOutcome(src: string, i: nat)
    requires i <= |src| && Lex(src, i).token.kind == Ident
    ensures var ts := Run(src, i, 4); var m := FirstMismatch(ts[1..], CallShape);
      (m < 3 ==> Statement(src, i) == Fail(CallErrors[m]))
      && (m == 3 ==> Statement(src, i) == Emit(Invoke(ts[0].token.lit), ts[3].next))
  {
    Run4(src, i);
  }

  /** A `printf` is a syntax error exactly when one of `(`, the string, `)`,
      `;` is missing, the first missing one naming the error; otherwise it
      emits the three printing lines for the string and ends after the `;`. */
  lemma PrintOutcome(src: string, i: nat)
    requires i <= |src| && Lex(src, i).token.kind == Printf
    ensures var ts := Run(src, i, 5); var m := FirstMismatch(ts[1..], PrintShape);
      (m < 4 ==> Statement(src, i) == Fail(PrintErrors[m]))
      && (m == 4 ==> Statement(src, i) == Emit(PrintText(ts[2].token.lit), ts[4].next))
  {
    Run5(src, i);
  }
}
