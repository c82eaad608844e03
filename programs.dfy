/** The language the generator of Compiler.java accepts, as a syntax tree, with
    the source text that spells a tree and the assembler text the generator
    should produce for it. The main theorem, `CompileRendered`, says that
    compiling the source of any well-formed program yields exactly the
    preamble followed by the program's assembler text: one `.method` ...
    `.end method` per declaration, one `invokestatic` per call and the three
    printing instructions per `printf`, in source order. */
module Programs {
  import opened Tokens
  import opened Lexing
  import opened LexingFacts
  import opened Translation

  /** A statement: a declaration `void name() { body }`, a call `callee();`
      or a `printf("text");`. */
  datatype Stmt =
    | DeclStmt(name: string, body: seq<Stmt>)
    | CallStmt(callee: string)
    | PrintStmt(text: string)

  /** A name the lexer reads back as an identifier. */
  predicate IsName(w: string) {
    |w| > 0 && (forall k :: 0 <= k < |w| ==> IsAlpha(w[k])) && w != "void" && w != "printf"
  }

  /** Contents the lexer reads back as one string literal. */
  predicate IsLiteral(s: string) {
    forall k :: 0 <= k < |s| ==> s[k] != '"'
  }

  /** A statement the lexer reads back as written: names are letter words
      other than the two keywords, texts hold no double quote, and so on
      down through a declaration's body. */
  predicate WellFormed(s: Stmt)
    decreases s
  {
    match s
    case DeclStmt(name, body) => IsName(name) && forall t :: t in body ==> WellFormed(t)
    case CallStmt(callee) => IsName(callee)
    case PrintStmt(text) => IsLiteral(text)
  }

  /** Every statement of a list is well formed. */
  predicate AllWellFormed(ss: seq<Stmt>) {
    forall s :: s in ss ==> WellFormed(s)
  }

  /** The source text of a statement. */
  function Source(s: Stmt): string
    decreases s, 1
  {
    match s
    case DeclStmt(name, body) => "void " + name + "(){" + SourceAll(body) + "}"
    case CallStmt(callee) => callee + "();"
    case PrintStmt(text) => "printf(\"" + text + "\");"
  }

  /** The source text of statements written one after the other. */
  function SourceAll(ss: seq<Stmt>): string
    decreases ss, 0
  {
    if ss == [] then "" else Source(ss[0]) + SourceAll(ss[1..])
  }

  /** The assembler text the generator should produce for a statement. */
  function Assembly(s: Stmt): string
    decreases s, 1
  {
    match s
    case DeclStmt(name, body) => MethodHeader(name) + Limits + AssemblyAll(body) + Epilogue
    case CallStmt(callee) => Invoke(callee)
    case PrintStmt(text) => PrintText(text)
  }

  /** The assembler text of statements, one after the other. */
  function AssemblyAll(ss: seq<Stmt>): string
    decreases ss, 0
  {
    if ss == [] then "" else Assembly(ss[0]) + AssemblyAll(ss[1..])
  }

  /** Reading the two halves of a text found at position i. */
  lemma Halves(src: string, i: nat, a: string, b: string)
    requires i + |a + b| <= |src| && src[i..i + |a + b|] == a + b
    ensures src[i..i + |a|] == a
    ensures src[i + |a|..i + |a| + |b|] == b
  {
    assert src[i..i + |a|] == (a + b)[..|a|];
    assert src[i + |a|..i + |a| + |b|] == (a + b)[|a|..];
  }

  /** A single character found at position i. */
  lemma CharOf(src: string, i: nat, c: char)
    requires i + 1 <= |src| && src[i..i + 1] == [c]
    ensures src[i] == c
  {
    assert src[i] == src[i..i + 1][0];
  }


  // ---------------------------------------------------------------------
  // Tokens: what `nextToken` returns over a spelled-out program.
  // ---------------------------------------------------------------------

  /** Lexing from position i yields the tokens ts in order: each token is
      read from where the one before it left the read position. */
  ghost predicate LexesTo(src: string, i: nat, ts: seq<Lexed>)
    decreases |ts|, 1
  {
    ts == [] || LexesFrom(src, i, ts)
  }

  /** The first of the tokens ts is lexed at position i and the rest follow
      it. (Kept apart from `LexesTo` so that a run is read token by token,
      through `LexesToCons`, rather than all at once.) */
  ghost predicate LexesFrom(src: string, i: nat, ts: seq<Lexed>)
    decreases |ts|, 0
  {
    ts != [] && i <= |src| && Lex(src, i) == ts[0] && LexesTo(src, ts[0].next, ts[1..])
  }

  /** A run is its first token followed by the run of the rest. */
  lemma LexesToCons(src: string, i: nat, t: Lexed, ts: seq<Lexed>)
    requires i <= |src|
    ensures LexesTo(src, i, [t] + ts) <==> Lex(src, i) == t && LexesTo(src, t.next, ts)
  {
    assert ([t] + ts)[1..] == ts;
  }

  /** A run is what successive `nextToken` calls return: `LexesTo` says of
      given tokens what `Run` computes. */
  lemma {:induction false} LexesToRun(src: string, i: nat, ts: seq<Lexed>)
    requires i <= |src|
    ensures LexesTo(src, i, ts) <==> Run(src, i, |ts|) == ts
    decreases |ts|
  {
    if ts != [] {
      var t := Lex(src, i);
      assert [ts[0]] + ts[1..] == ts;
      LexesToCons(src, i, ts[0], ts[1..]);
      var r := Run(src, t.next, |ts| - 1);
      assert Run(src, i, |ts|) == [t] + r;
      if t == ts[0] {
        LexesToRun(src, t.next, ts[1..]);
        assert Run(src, i, |ts|) == ts <==> r == ts[1..] by {
          if r == ts[1..] {
            assert [t] + r == ts;
          }
          if [t] + r == ts {
            assert r == ([t] + r)[1..];
          }
        }
      } else {
        assert Run(src, i, |ts|)[0] != ts[0];
      }
    }
  }

  /** A run of one token. */
  lemma LexesTo1(src: string, i: nat, a: Lexed)
    requires i <= |src|
    ensures LexesTo(src, i, [a]) <==> Lex(src, i) == a
  {
    LexesToCons(src, i, a, []);
    assert [a] + [] == [a];
  }

  /** A run of four tokens, token by token. */
  lemma LexesTo4(src: string, i: nat, a: Lexed, b: Lexed, c: Lexed, d: Lexed)
    requires i <= |src|
    ensures LexesTo(src, i, [a, b, c, d]) <==>
      (Lex(src, i) == a && Lex(src, a.next) == b && Lex(src, b.next) == c && Lex(src, c.next) == d)
  {
    assert [a, b, c, d] == [a] + [b, c, d];
    LexesToCons(src, i, a, [b, c, d]);
    if Lex(src, i) == a {
      assert [b, c, d] == [b] + [c, d];
      LexesToCons(src, a.next, b, [c, d]);
      if Lex(src, a.next) == b {
        assert [c, d] == [c] + [d];
        LexesToCons(src, b.next, c, [d]);
        if Lex(src, b.next) == c {
          LexesTo1(src, c.next, d);
        }
      }
    }
  }

  /** A run of five tokens, token by token. */
  lemma LexesTo5(src: string, i: nat, a: Lexed, b: Lexed, c: Lexed, d: Lexed, e: Lexed)
    requires i <= |src|
    ensures LexesTo(src, i, [a, b, c, d, e]) <==>
      (Lex(src, i) == a && Lex(src, a.next) == b && Lex(src, b.next) == c && Lex(src, c.next) == d
       && Lex(src, d.next) == e)
  {
    assert [a, b, c, d, e] == [a] + [b, c, d, e];
    LexesToCons(src, i, a, [b, c, d, e]);
    if Lex(src, i) == a {
      LexesTo4(src, a.next, b, c, d, e);
    }
  }

  /** The tokens of a declaration head `void name(){` written at position i. */
  function HeadTokens(i: nat, name: string): seq<Lexed> {
    var n := |name|;
    [Lexed(Token(Void, "void"), i + 4), Lexed(Token(Ident, name), i + 5 + n),
     Lexed(Token(LParen, "("), i + 6 + n), Lexed(Token(RParen, ")"), i + 7 + n),
     Lexed(Token(LBrace, "{"), i + 8 + n)]
  }

  /** The tokens of a call `callee();` written at position i. */
  function CallTokens(i: nat, callee: string): seq<Lexed> {
    var n := |callee|;
    [Lexed(Token(Ident, callee), i + n), Lexed(Token(LParen, "("), i + n + 1),
     Lexed(Token(RParen, ")"), i + n + 2), Lexed(Token(Semicolon, ";"), i + n + 3)]
  }

  /** The tokens of a `printf("text");` written at position i. */
  function PrintTokens(i: nat, text: string): seq<Lexed> {
    var n := |text|;
    [Lexed(Token(Printf, "printf"), i + 6), Lexed(Token(LParen, "("), i + 7),
     Lexed(Token(String, text), i + 9 + n), Lexed(Token(RParen, ")"), i + 10 + n),
     Lexed(Token(Semicolon, ";"), i + 11 + n)]
  }

  /** The tokens of a declaration head, lexed from position i. */
  ghost predicate HeadLexed(src: string, i: nat, name: string) {
    i + |name| + 8 <= |src| && LexesTo(src, i, HeadTokens(i, name))
  }

  /** The tokens of a call, lexed from position i. */
  ghost predicate CallLexed(src: string, i: nat, callee: string) {
    i + |callee| + 3 <= |src| && LexesTo(src, i, CallTokens(i, callee))
  }

  /** The tokens of a `printf`, lexed from position i. */
  ghost predicate PrintLexed(src: string, i: nat, text: string) {
    i + |text| + 11 <= |src| && LexesTo(src, i, PrintTokens(i, text))
  }

  /** The closing `}` of a declaration, lexed at position e (named so that
      lemmas pass the fact on as one term). */
  ghost predicate Closes(src: string, e: nat) {
    e < |src| && LexesTo(src, e, [Lexed(Token(RBrace, "}"), e + 1)])
  }

  /** Lexing from position i yields exactly the tokens of statement s, each
      ending where the statement's source text says. */
  ghost predicate Spelled(src: string, i: nat, s: Stmt)
    decreases s, 1
  {
    match s
    case CallStmt(callee) => CallLexed(src, i, callee)
    case PrintStmt(text) => PrintLexed(src, i, text)
    case DeclStmt(name, body) =>
      var p := i + |name| + 8;
      var e := p + |SourceAll(body)|;
      HeadLexed(src, i, name) && SpelledAll(src, p, body) && Closes(src, e)
  }

  /** Lexing from position i yields exactly the tokens of the statements ss. */
  ghost predicate SpelledAll(src: string, i: nat, ss: seq<Stmt>)
    decreases ss, 0
  {
    i + |SourceAll(ss)| <= |src| &&
    (ss == [] || (Spelled(src, i, ss[0]) && SpelledAll(src, i + |Source(ss[0])|, ss[1..])))
  }

  /** A call `callee();` written out at position i is lexed as its tokens. */
  lemma CallWritten(src: string, i: nat, callee: string)
    requires IsName(callee)
    requires i + |callee| + 3 <= |src| && src[i..i + |callee|] == callee
    requires src[i + |callee|] == '(' && src[i + |callee| + 1] == ')' && src[i + |callee| + 2] == ';'
    ensures CallLexed(src, i, callee)
  {
    var n := |callee|;
    LexWordAt(src, i, callee);
    LexSymbolAt(src, i + n);
    LexSymbolAt(src, i + n + 1);
    LexSymbolAt(src, i + n + 2);
    var ts := CallTokens(i, callee);
    LexesTo4(src, i, ts[0], ts[1], ts[2], ts[3]);
  }

  /** A `printf("text");` written out at position i is lexed as its tokens. */
  lemma PrintWritten(src: string, i: nat, text: string)
    requires IsLiteral(text)
    requires i + |text| + 11 <= |src| && src[i..i + 6] == "printf"
    requires src[i + 6] == '(' && src[i + 7] == '"' && src[i + 8..i + 8 + |text|] == text
    requires src[i + 8 + |text|] == '"' && src[i + 9 + |text|] == ')' && src[i + 10 + |text|] == ';'
    ensures PrintLexed(src, i, text)
  {
    var n := |text|;
    LexWordAt(src, i, "printf");
    LexSymbolAt(src, i + 6);
    LexStringAt(src, i + 7, text);
    LexSymbolAt(src, i + 9 + n);
    LexSymbolAt(src, i + 10 + n);
    var ts := PrintTokens(i, text);
    LexesTo5(src, i, ts[0], ts[1], ts[2], ts[3], ts[4]);
  }

  /** A declaration head `void name(){` written out at position i is lexed
      as its tokens. */
  lemma HeadWritten(src: string, i: nat, name: string)
    requires IsName(name)
    requires i + |name| + 8 <= |src| && src[i..i + 4] == "void" && src[i + 4] == ' '
    requires src[i + 5..i + 5 + |name|] == name
    requires src[i + 5 + |name|] == '(' && src[i + 6 + |name|] == ')' && src[i + 7 + |name|] == '{'
    ensures HeadLexed(src, i, name)
  {
    var n := |name|;
    LexWordAt(src, i, "void");
    LexAfterBlank(src, i + 4);
    LexWordAt(src, i + 5, name);
    LexSymbolAt(src, i + 5 + n);
    LexSymbolAt(src, i + 6 + n);
    LexSymbolAt(src, i + 7 + n);
    var ts := HeadTokens(i, name);
    LexesTo5(src, i, ts[0], ts[1], ts[2], ts[3], ts[4]);
  }

  /** Where each piece of a declaration head's source lies. */
  lemma HeadLayout(src: string, i: nat, name: string)
    requires i + |"void " + name + "(){"| <= |src|
    requires src[i..i + |"void " + name + "(){"|] == "void " + name + "(){"
    ensures src[i..i + 4] == "void" && src[i + 4] == ' '
    ensures src[i + 5..i + 5 + |name|] == name
    ensures src[i + 5 + |name|] == '(' && src[i + 6 + |name|] == ')' && src[i + 7 + |name|] == '{'
  {
    var n := |name|;
    Halves(src, i, "void " + name, "(){");
    Halves(src, i, "void ", name);
    Halves(src, i, "void", " ");
    CharOf(src, i + 4, ' ');
    assert src[i + 5 + n..i + 8 + n] == "(){";
    assert src[i + 5 + n] == src[i + 5 + n..i + 8 + n][0];
    assert src[i + 6 + n] == src[i + 5 + n..i + 8 + n][1];
    assert src[i + 7 + n] == src[i + 5 + n..i + 8 + n][2];
  }

  /** Where each piece of a declaration's source lies. */
  lemma DeclLayout(src: string, i: nat, name: string, inner: string)
    requires i + |"void " + name + "(){" + inner + "}"| <= |src|
    requires src[i..i + |"void " + name + "(){" + inner + "}"|] == "void " + name + "(){" + inner + "}"
    ensures src[i..i + 4] == "void" && src[i + 4] == ' '
    ensures src[i + 5..i + 5 + |name|] == name
    ensures src[i + 5 + |name|] == '(' && src[i + 6 + |name|] == ')' && src[i + 7 + |name|] == '{'
    ensures src[i + 8 + |name|..i + 8 + |name| + |inner|] == inner
    ensures src[i + 8 + |name| + |inner|] == '}'
  {
    Halves(src, i, "void " + name + "(){" + inner, "}");
    Halves(src, i, "void " + name + "(){", inner);
    HeadLayout(src, i, name);
    CharOf(src, i + 8 + |name| + |inner|, '}');
  }

  /** The source of a call statement at position i is lexed as its tokens. */
  lemma CallSpelled(src: string, i: nat, callee: string)
    requires IsName(callee)
    requires i + |Source(CallStmt(callee))| <= |src|
    requires src[i..i + |Source(CallStmt(callee))|] == Source(CallStmt(callee))
    ensures Spelled(src, i, CallStmt(callee))
  {
    var n := |callee|;
    Halves(src, i, callee, "();");
    assert src[i + n] == '(' && src[i + n + 1] == ')' && src[i + n + 2] == ';' by {
      assert src[i + n..i + n + 3] == "();";
      assert src[i + n] == src[i + n..i + n + 3][0];
      assert src[i + n + 1] == src[i + n..i + n + 3][1];
      assert src[i + n + 2] == src[i + n..i + n + 3][2];
    }
    CallWritten(src, i, callee);
  }

  /** The source of a `printf` statement at position i is lexed as its tokens. */
  lemma PrintSpelled(src: string, i: nat, text: string)
    requires IsLiteral(text)
    requires i + |Source(PrintStmt(text))| <= |src|
    requires src[i..i + |Source(PrintStmt(text))|] == Source(PrintStmt(text))
    ensures Spelled(src, i, PrintStmt(text))
  {
    var n := |text|;
    assert Source(PrintStmt(text)) == "printf(\"" + text + "\");";
    Halves(src, i, "printf(\"" + text, "\");");
    Halves(src, i, "printf(\"", text);
    Halves(src, i, "printf", "(\"");
    assert src[i + 6] == '(' && src[i + 7] == '"' by {
      assert src[i + 6..i + 8] == "(\"";
      assert src[i + 6] == src[i + 6..i + 8][0];
      assert src[i + 7] == src[i + 6..i + 8][1];
    }
    assert src[i + 8 + n] == '"' && src[i + 9 + n] == ')' && src[i + 10 + n] == ';' by {
      assert src[i + 8 + n..i + 11 + n] == "\");";
      assert src[i + 8 + n] == src[i + 8 + n..i + 11 + n][0];
      assert src[i + 9 + n] == src[i + 8 + n..i + 11 + n][1];
      assert src[i + 10 + n] == src[i + 8 + n..i + 11 + n][2];
    }
    PrintWritten(src, i, text);
  }

  /** The source of a declaration at position i is lexed as its tokens, the
      body's by induction. */
  lemma {:induction false} DeclSpelled(src: string, i: nat, name: string, body: seq<Stmt>)
    requires WellFormed(DeclStmt(name, body)) && Written(src, i, Source(DeclStmt(name, body)))
    ensures Spelled(src, i, DeclStmt(name, body))
    decreases DeclStmt(name, body), 0
  {
    var p := i + |name| + 8;
    DeclPieces(src, i, name, SourceAll(body));
    assert AllWellFormed(body);
    SourceAllSpelled(src, p, body);
    DeclJoin(src, i, name, body);
  }

  /** A lexed head, the body's tokens and the closing `}` make the tokens of
      a declaration. */
  lemma DeclJoin(src: string, i: nat, name: string, body: seq<Stmt>)
    requires var p := i + |name| + 8;
      HeadLexed(src, i, name) && TokensOf(src, p, body) && Closes(src, p + |SourceAll(body)|)
    ensures Spelled(src, i, DeclStmt(name, body))
  {
  }

  /** The source of a declaration at position i, with the body's text
      `inner`: its head and its `}` are lexed as their tokens, and the
      body's text lies between them. */
  lemma DeclPieces(src: string, i: nat, name: string, inner: string)
    requires IsName(name) && Written(src, i, "void " + name + "(){" + inner + "}")
    ensures HeadLexed(src, i, name) && Written(src, i + |name| + 8, inner)
    ensures Closes(src, i + |name| + 8 + |inner|)
  {
    var e := i + |name| + 8 + |inner|;
    DeclLayout(src, i, name, inner);
    HeadWritten(src, i, name);
    CloseWritten(src, e);
  }

  /** A `}` at position e is lexed as the closing token. */
  lemma CloseWritten(src: string, e: nat)
    requires e < |src| && src[e] == '}'
    ensures Closes(src, e)
  {
    LexSymbolAt(src, e);
    LexesTo1(src, e, Lexed(Token(RBrace, "}"), e + 1));
  }

  /** The text w is found in src at position i (named so that lemmas pass
      the fact on as one term rather than as a slice equation). */
  predicate Written(src: string, i: nat, w: string) {
    i + |w| <= |src| && src[i..i + |w|] == w
  }

  /** The source of any well-formed statement at position i is lexed as
      exactly that statement's tokens. */
  lemma {:induction false} SourceSpelled(src: string, i: nat, s: Stmt)
    requires WellFormed(s) && Written(src, i, Source(s))
    ensures Spelled(src, i, s)
    decreases s, 1
  {
    match s
    case DeclStmt(name, body) => DeclSpelled(src, i, name, body);
    case CallStmt(callee) => CallSpelled(src, i, callee);
    case PrintStmt(text) => PrintSpelled(src, i, text);
  }

  /** The source of a non-empty statement list, split into its first
      statement's source and the rest's. */
  lemma SplitSource(src: string, i: nat, ss: seq<Stmt>, j: nat)
    requires ss != [] && AllWellFormed(ss) && Written(src, i, SourceAll(ss))
    requires j == i + |Source(ss[0])|
    ensures WellFormed(ss[0]) && AllWellFormed(ss[1..])
    ensures Written(src, i, Source(ss[0])) && Written(src, j, SourceAll(ss[1..]))
  {
    assert ss[0] in ss;
    assert forall t :: t in ss[1..] ==> t in ss;
    Halves(src, i, Source(ss[0]), SourceAll(ss[1..]));
  }

  /** A statement's tokens followed by the tokens of a list make the tokens
      of the longer list. */
  lemma SpelledCons(src: string, i: nat, ss: seq<Stmt>, j: nat)
    requires ss != [] && i + |SourceAll(ss)| <= |src| && j == i + |Source(ss[0])|
    requires Spelled(src, i, ss[0]) && TokensOf(src, j, ss[1..])
    ensures TokensOf(src, i, ss)
  {
  }

  /** Statements spelled out one after the other from position i are lexed
      as their tokens, in order. */
  lemma {:induction false} SourceAllSpelled(src: string, i: nat, ss: seq<Stmt>)
    requires AllWellFormed(ss) && Written(src, i, SourceAll(ss))
    ensures TokensOf(src, i, ss)
    decreases ss, 2
  {
    if ss != [] {
      var j := i + |Source(ss[0])|;
      SplitSource(src, i, ss, j);
      SourceAllSpelled(src, j, ss[1..]);
      SourceSpelled(src, i, ss[0]);
      SpelledCons(src, i, ss, j);
    }
  }

  // ---------------------------------------------------------------------
  // Translation: what the generator does with those tokens.
  // ---------------------------------------------------------------------

  // The predicates Emits, EndsAt and Yields only name an equation about
  // `Statement` or `Block`. The lemmas below exchange these facts under
  // those names, so the solver matches one term and does not unfold the
  // mutually recursive translation functions at each step.

  /** The statement at position i emits `text` and ends at position j. */
  ghost predicate Emits(src: string, i: nat, text: string, j: nat) {
    i <= |src| && Statement(src, i) == Emit(text, j)
  }

  /** The statement at position e ends the block, and the read position
      after it is k. */
  ghost predicate EndsAt(src: string, e: nat, k: nat) {
    e <= |src| && Statement(src, e) == Stop(k)
  }

  /** The block at position i emits `text` and ends at position k. */
  ghost predicate Yields(src: string, i: nat, text: string, k: nat) {
    i <= |src| && Block(src, i) == Done(text, k)
  }

  /** `Eof` or `}` ends the current block: the statement reader stops after it. */
  lemma StatementStops(src: string, i: nat)
    requires i <= |src| && Lex(src, i).token.kind in {Eof, RBrace}
    ensures EndsAt(src, i, Lex(src, i).next)
  {
  }

  /** A block whose first statement is an ending token is empty. */
  lemma BlockStops(src: string, i: nat, k: nat)
    requires EndsAt(src, i, k)
    ensures Yields(src, i, "", k)
  {
  }

  /** A statement followed by a block: the block's text after the statement's. */
  lemma BlockLast(src: string, i: nat, text: string, j: nat, rest: string, k: nat)
    requires Emits(src, i, text, j) && Yields(src, j, rest, k)
    ensures Yields(src, i, text + rest, k)
  {
  }

  /** The four tokens of a call, one after the other. */
  lemma CallFacts(src: string, i: nat, callee: string)
    requires CallLexed(src, i, callee)
    ensures Lex(src, i) == Lexed(Token(Ident, callee), i + |callee|)
    ensures Lex(src, i + |callee|) == Lexed(Token(LParen, "("), i + |callee| + 1)
    ensures Lex(src, i + |callee| + 1) == Lexed(Token(RParen, ")"), i + |callee| + 2)
    ensures Lex(src, i + |callee| + 2) == Lexed(Token(Semicolon, ";"), i + |callee| + 3)
  {
    var ts := CallTokens(i, callee);
    LexesTo4(src, i, ts[0], ts[1], ts[2], ts[3]);
  }

  /** The tokens of a call are translated into its one `invokestatic` line. */
  lemma CallOfTokens(src: string, i: nat, callee: string)
    requires i + |callee| + 3 <= |src|
    requires Lex(src, i) == Lexed(Token(Ident, callee), i + |callee|)
    requires Lex(src, i + |callee|) == Lexed(Token(LParen, "("), i + |callee| + 1)
    requires Lex(src, i + |callee| + 1) == Lexed(Token(RParen, ")"), i + |callee| + 2)
    requires Lex(src, i + |callee| + 2) == Lexed(Token(Semicolon, ";"), i + |callee| + 3)
    ensures Emits(src, i, Invoke(callee), i + |callee| + 3)
  {
  }

  /** The five tokens of a `printf`, one after the other. */
  lemma PrintFacts(src: string, i: nat, text: string)
    requires PrintLexed(src, i, text)
    ensures Lex(src, i) == Lexed(Token(Printf, "printf"), i + 6)
    ensures Lex(src, i + 6) == Lexed(Token(LParen, "("), i + 7)
    ensures Lex(src, i + 7) == Lexed(Token(String, text), i + 9 + |text|)
    ensures Lex(src, i + 9 + |text|) == Lexed(Token(RParen, ")"), i + 10 + |text|)
    ensures Lex(src, i + 10 + |text|) == Lexed(Token(Semicolon, ";"), i + 11 + |text|)
  {
    var ts := PrintTokens(i, text);
    LexesTo5(src, i, ts[0], ts[1], ts[2], ts[3], ts[4]);
  }

  /** The tokens of a `printf` are translated into its three printing lines. */
  lemma PrintOfTokens(src: string, i: nat, text: string)
    requires i + |text| + 11 <= |src|
    requires Lex(src, i) == Lexed(Token(Printf, "printf"), i + 6)
    requires Lex(src, i + 6) == Lexed(Token(LParen, "("), i + 7)
    requires Lex(src, i + 7) == Lexed(Token(String, text), i + 9 + |text|)
    requires Lex(src, i + 9 + |text|) == Lexed(Token(RParen, ")"), i + 10 + |text|)
    requires Lex(src, i + 10 + |text|) == Lexed(Token(Semicolon, ";"), i + 11 + |text|)
    ensures Emits(src, i, PrintText(text), i + |text| + 11)
  {
  }

  /** The five tokens of a declaration head, one after the other. */
  lemma HeadFacts(src: string, i: nat, name: string)
    requires HeadLexed(src, i, name)
    ensures Lex(src, i) == Lexed(Token(Void, "void"), i + 4)
    ensures Lex(src, i + 4) == Lexed(Token(Ident, name), i + 5 + |name|)
    ensures Lex(src, i + 5 + |name|) == Lexed(Token(LParen, "("), i + 6 + |name|)
    ensures Lex(src, i + 6 + |name|) == Lexed(Token(RParen, ")"), i + 7 + |name|)
    ensures Lex(src, i + 7 + |name|) == Lexed(Token(LBrace, "{"), i + 8 + |name|)
  {
    var ts := HeadTokens(i, name);
    LexesTo5(src, i, ts[0], ts[1], ts[2], ts[3], ts[4]);
  }

  /** The rest of a declaration after `void`, given its name, `(`, `)` and
      `{` tokens: the block after the `{`, enclosed in the `.method` line and
      limits and the closing lines. */
  lemma DeclarationOfTokens(src: string, i: nat, name: string)
    requires i + |name| + 8 <= |src|
    requires Lex(src, i + 4) == Lexed(Token(Ident, name), i + 5 + |name|)
    requires Lex(src, i + 5 + |name|) == Lexed(Token(LParen, "("), i + 6 + |name|)
    requires Lex(src, i + 6 + |name|) == Lexed(Token(RParen, ")"), i + 7 + |name|)
    requires Lex(src, i + 7 + |name|) == Lexed(Token(LBrace, "{"), i + 8 + |name|)
    ensures Declaration(src, i + 4) == Block(src, i + |name| + 8).Enclose(MethodHeader(name) + Limits, Epilogue)
  {
  }

  /** `void` starts a declaration: the statement is whatever the rest of the
      declaration after the keyword yields. */
  lemma StatementOfVoid(src: string, i: nat)
    requires i <= |src| && Lex(src, i).token.kind == Void
    ensures Statement(src, i) == Declaration(src, Lex(src, i).next).AsStep()
  {
  }

  /** A declaration whose head tokens have been read and whose body block is
      translated into `text` yields that text inside the `.method` line, the
      limits and the closing lines. */
  lemma DeclOfTokens(src: string, i: nat, name: string, text: string, j: nat)
    requires i + |name| + 8 <= |src|
    requires Lex(src, i) == Lexed(Token(Void, "void"), i + 4)
    requires Lex(src, i + 4) == Lexed(Token(Ident, name), i + 5 + |name|)
    requires Lex(src, i + 5 + |name|) == Lexed(Token(LParen, "("), i + 6 + |name|)
    requires Lex(src, i + 6 + |name|) == Lexed(Token(RParen, ")"), i + 7 + |name|)
    requires Lex(src, i + 7 + |name|) == Lexed(Token(LBrace, "{"), i + 8 + |name|)
    requires Yields(src, i + |name| + 8, text, j)
    ensures Emits(src, i, MethodHeader(name) + Limits + text + Epilogue, j)
  {
    DeclarationOfTokens(src, i, name);
    StatementOfVoid(src, i);
  }

  /** A lexed declaration head followed by a translated body emits the whole
      method. */
  lemma DeclEmits(src: string, i: nat, name: string, text: string, j: nat)
    requires HeadLexed(src, i, name) && Yields(src, i + |name| + 8, text, j)
    ensures Emits(src, i, MethodHeader(name) + Limits + text + Epilogue, j)
  {
    HeadFacts(src, i, name);
    DeclOfTokens(src, i, name, text, j);
  }

  /** The tokens of a declaration: its head, its body's statements and the
      closing `}`. */
  lemma DeclParts(src: string, i: nat, name: string, body: seq<Stmt>)
    requires Spelled(src, i, DeclStmt(name, body))
    ensures var p := i + |name| + 8;
      HeadLexed(src, i, name) && TokensOf(src, p, body) && Closes(src, p + |SourceAll(body)|)
  {
  }

  /** A lexed `}` ends the statement sequence it closes. */
  lemma CloseStops(src: string, e: nat)
    requires Closes(src, e)
    ensures EndsAt(src, e, e + 1)
  {
    LexesTo1(src, e, Lexed(Token(RBrace, "}"), e + 1));
    StatementStops(src, e);
  }

  /** The tokens of a declaration are translated into its method. */
  lemma {:induction false} DeclOfSpelled(src: string, i: nat, name: string, body: seq<Stmt>, p: nat, e: nat)
    requires p == i + |name| + 8 && e == p + |SourceAll(body)|
    requires HeadLexed(src, i, name) && TokensOf(src, p, body) && Closes(src, e)
    ensures Emits(src, i, MethodHeader(name) + Limits + AssemblyAll(body) + Epilogue, e + 1)
    decreases DeclStmt(name, body), 0
  {
    CloseStops(src, e);
    BlockOfSpelled(src, p, body, e, e + 1);
    DeclEmits(src, i, name, AssemblyAll(body), e + 1);
  }

  /** The tokens of any well-formed statement are translated into exactly
      that statement's assembler text, ending where its source text ends. */
  lemma {:induction false} StatementOfSpelled(src: string, i: nat, s: Stmt)
    requires Spelled(src, i, s)
    ensures Emits(src, i, Assembly(s), i + |Source(s)|)
    decreases s, 1
  {
    match s
    case CallStmt(callee) =>
      CallFacts(src, i, callee);
      CallOfTokens(src, i, callee);
    case PrintStmt(text) =>
      PrintFacts(src, i, text);
      PrintOfTokens(src, i, text);
    case DeclStmt(name, body) =>
      var p := i + |name| + 8;
      DeclParts(src, i, name, body);
      DeclOfSpelled(src, i, name, body, p, p + |SourceAll(body)|);
  }

  /** `SpelledAll` under a name that is not recursive: the solver unfolds a
      recursive predicate it has to prove at every mention, while this one
      matches as a whole. The induction over a list of statements passes its
      fact on in this form. */
  ghost predicate TokensOf(src: string, i: nat, ss: seq<Stmt>) {
    SpelledAll(src, i, ss)
  }

  /** The tokens of a non-empty statement list: the first statement's, then
      the rest's. */
  lemma SpelledSplit(src: string, i: nat, ss: seq<Stmt>)
    requires ss != [] && TokensOf(src, i, ss)
    ensures Spelled(src, i, ss[0]) && TokensOf(src, i + |Source(ss[0])|, ss[1..])
    ensures i + |Source(ss[0])| + |SourceAll(ss[1..])| == i + |SourceAll(ss)|
  {
  }

  /** A block whose first statement emits its text and whose remaining
      statements form a block: the two texts in order. */
  lemma BlockCons(src: string, i: nat, ss: seq<Stmt>, j: nat, k: nat)
    requires ss != []
    requires Emits(src, i, Assembly(ss[0]), j) && Yields(src, j, AssemblyAll(ss[1..]), k)
    ensures Yields(src, i, AssemblyAll(ss), k)
  {
    BlockLast(src, i, Assembly(ss[0]), j, AssemblyAll(ss[1..]), k);
  }

  /** The tokens of statements, followed by a token that ends the block, are
      translated as a block into exactly the statements' texts, in order. */
  lemma {:induction false} BlockOfSpelled(src: string, i: nat, ss: seq<Stmt>, e: nat, k: nat)
    requires e == i + |SourceAll(ss)|
    requires TokensOf(src, i, ss) && EndsAt(src, e, k)
    ensures Yields(src, i, AssemblyAll(ss), k)
    decreases ss, 2
  {
    if ss == [] {
      BlockStops(src, i, k);
    } else {
      var j := i + |Source(ss[0])|;
      SpelledSplit(src, i, ss);
      BlockOfSpelled(src, j, ss[1..], e, k);
      StatementOfSpelled(src, i, ss[0]);
      BlockCons(src, i, ss, j, k);
    }
  }

  // ---------------------------------------------------------------------
  // Whole programs.
  // ---------------------------------------------------------------------

  /** At the end of input a block is empty and leaves the cursor in place. */
  lemma BlockAtEnd(src: string)
    ensures Yields(src, |src|, "", |src|)
  {
    LexAtEnd(src);
    StatementStops(src, |src|);
    BlockStops(src, |src|, |src|);
  }

  /** A block holding one statement that runs to the end of input is
      translated into that statement's text. */
  lemma BlockSingle(src: string, i: nat, text: string)
    requires Emits(src, i, text, |src|)
    ensures Yields(src, i, text, |src|)
  {
    BlockAtEnd(src);
    BlockLast(src, i, text, |src|, "", |src|);
    assert text + "" == text;
  }

  /** The compiled text is the preamble and then the top-level block's text. */
  lemma CompileOfBlock(src: string, text: string, j: nat)
    requires Yields(src, 0, text, j)
    ensures Compile(src) == Ok(Preamble + text)
  {
  }

  /** From a position followed only by blanks and comments, the block is
      empty and ends at the end of input. */
  lemma BlankYields(src: string, i: nat)
    requires i <= |src| && SkipWs(src, i) == |src|
    ensures Yields(src, i, "", |src|)
  {
    assert Lex(src, i) == Lexed(Token(Eof, ""), |src|);
    StatementStops(src, i);
    BlockStops(src, i, |src|);
  }

  /** A compilation that yields a prefix followed by no text yields the
      prefix. */
  lemma NoText(r: Result<string>, prefix: string)
    requires r == Ok(prefix + "")
    ensures r == Ok(prefix)
  {
    assert prefix + "" == prefix;
  }

  /** Input made only of blanks and comments compiles to exactly the
      preamble. */
  lemma SkippedOnly(src: string)
    requires SkipWs(src, 0) == |src|
    ensures Compile(src) == Ok(Preamble)
  {
    SkippedFrom(src, 0);
  }

  /** `SkippedOnly`, with the start of input passed as a parameter: written
      as the literal 0 next to the preamble, the solver unfolds it. */
  lemma SkippedFrom(src: string, i: nat)
    requires i == 0 && SkipWs(src, i) == |src|
    ensures Compile(src) == Ok(Preamble)
  {
    BlankYields(src, i);
    CompileOfEmpty(src, |src|);
  }

  /** An empty top-level block compiles to exactly the preamble. */
  lemma CompileOfEmpty(src: string, j: nat)
    requires Yields(src, 0, "", j)
    ensures Compile(src) == Ok(Preamble)
  {
    CompileOfBlock(src, "", j);
    NoText(Compile(src), Preamble);
  }

  /** Input that is only blanks compiles to exactly the preamble. */
  lemma BlanksOnly(src: string)
    requires forall k :: 0 <= k < |src| ==> IsBlank(src[k])
    ensures Compile(src) == Ok(Preamble)
  {
    SkipAllBlanks(src, 0);
    SkippedOnly(src);
  }

  /** Input that is one comment with no newline after it compiles to exactly
      the preamble: the comment ends at the end of input. */
  lemma TrailingCommentOnly(src: string)
    requires |src| > 0 && src[0] == '#'
    requires forall k :: 0 <= k < |src| ==> src[k] != '\n'
    ensures Compile(src) == Ok(Preamble)
  {
    SkipTrailingComment(src, 0);
    SkippedOnly(src);
  }

  /** Compiling the source of a well-formed program yields the preamble and
      then exactly the program's assembler text. */
  lemma CompileRendered(ss: seq<Stmt>)
    requires AllWellFormed(ss)
    ensures Compile(SourceAll(ss)) == Ok(Preamble + AssemblyAll(ss))
  {
    var src := SourceAll(ss);
    assert TokensOf(src, 0, ss) by {
      assert src[0..|src|] == src;
      SourceAllSpelled(src, 0, ss);
    }
    LexAtEnd(src);
    StatementStops(src, |src|);
    BlockOfSpelled(src, 0, ss, |src|, |src|);
    CompileOfBlock(src, AssemblyAll(ss), |src|);
  }

  /** A `}` at top level ends the translation: whatever follows it is never
      read. */
  lemma CloseAtTopLevelStops(ss: seq<Stmt>, rest: string)
    requires AllWellFormed(ss)
    ensures Compile(SourceAll(ss) + "}" + rest) == Ok(Preamble + AssemblyAll(ss))
  {
    var src := SourceAll(ss) + "}" + rest;
    var e := |SourceAll(ss)|;
    assert TokensOf(src, 0, ss) && Lex(src, e).token.kind == RBrace && Lex(src, e).next == e + 1 by {
      assert src[0..e] == SourceAll(ss);
      assert src[e] == '}';
      SourceAllSpelled(src, 0, ss);
      LexSymbolAt(src, e);
    }
    StatementStops(src, e);
    BlockOfSpelled(src, 0, ss, e, e + 1);
    CompileOfBlock(src, AssemblyAll(ss), e + 1);
  }

  /** A declaration whose `}` is missing is closed by the end of input: it
      still gets its `return` and `.end method`. */
  lemma UnclosedDeclaration(name: string, body: seq<Stmt>)
    requires WellFormed(DeclStmt(name, body))
    ensures Compile("void " + name + "(){" + SourceAll(body))
         == Ok(Preamble + Assembly(DeclStmt(name, body)))
  {
    var src := "void " + name + "(){" + SourceAll(body);
    UnclosedTokens(src, name, body);
    UnclosedEmits(src, name, body);
    BlockSingle(src, 0, Assembly(DeclStmt(name, body)));
    CompileOfBlock(src, Assembly(DeclStmt(name, body)), |src|);
  }

  /** The tokens of a declaration's head and body with nothing after them. */
  lemma UnclosedTokens(src: string, name: string, body: seq<Stmt>)
    requires WellFormed(DeclStmt(name, body))
    requires src == "void " + name + "(){" + SourceAll(body)
    ensures HeadLexed(src, 0, name) && TokensOf(src, |name| + 8, body)
  {
    var head := "void " + name + "(){";
    var p := |name| + 8;
    assert src[0..|head|] == head;
    HeadLayout(src, 0, name);
    HeadWritten(src, 0, name);
    assert src[p..p + |SourceAll(body)|] == SourceAll(body);
    assert AllWellFormed(body);
    SourceAllSpelled(src, p, body);
  }

  /** A declaration whose body runs to the end of input emits the whole
      method. */
  lemma UnclosedEmits(src: string, name: string, body: seq<Stmt>)
    requires |name| + 8 + |SourceAll(body)| == |src|
    requires HeadLexed(src, 0, name) && TokensOf(src, |name| + 8, body)
    ensures Emits(src, 0, Assembly(DeclStmt(name, body)), |src|)
  {
    var p := |name| + 8;
    LexAtEnd(src);
    StatementStops(src, |src|);
    BlockOfSpelled(src, p, body, |src|, |src|);
    DeclEmits(src, 0, name, AssemblyAll(body), |src|);
  }
}
