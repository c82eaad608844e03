/** The code generator of Compiler.java: it pulls tokens from the lexer,
    checks the fixed token sequence of each statement form, and appends Jasmin
    assembler text to a buffer that starts with a fixed preamble. A nested
    `void f() { ... }` body is translated by a recursive call that stops at
    the matching `}` (or at end of input).

    The functions `Statement` and `Block` say, for a source text and a read
    position, what text one statement and one block produce; the class
    `CodeGen` is proved to append exactly that text. */
module Translation {
  import opened Tokens
  import opened Lexing

  /** The syntax errors on which the source prints a diagnostic and exits. */
  datatype SyntaxError =
    | ExpectedIdentAfterVoid
    | ExpectedLParen
    | ExpectedRParen
    | ExpectedLBrace
    | ExpectedSemicolon
    | ExpectedString
    | Unhandled(token: Token)

  /** How one run of `generateCode` ends. */
  datatype Status = Success | Failure(error: SyntaxError)

  /** The result of a whole compilation. */
  datatype Result<T> = Ok(value: T) | Err(error: SyntaxError)

  /** What the statement that starts at a read position does: it ends the
      current block (`Eof` or `}`), emits text, or is a syntax error.
      `next` is the read position after it. */
  datatype Step = Stop(next: nat) | Emit(text: string, next: nat) | Fail(error: SyntaxError)

  /** What a whole block does: the text it emits and the read position after
      its closing token, or the first syntax error in it. */
  datatype Outcome = Done(text: string, next: nat) | Abort(error: SyntaxError)
  {
    /** The outcome of emitting `prefix` and then running into this outcome. */
    function After(prefix: string): (o: Outcome)
      ensures o.Done? <==> Done?
      ensures o.Done? ==> o.text == prefix + text && o.next == next
      ensures o.Abort? ==> o.error == error
    {
      match this
      case Done(t, j) => Done(prefix + t, j)
      case Abort(e) => Abort(e)
    }

    /** The outcome of a block wrapped in a header and a footer. */
    function Enclose(header: string, footer: string): (o: Outcome)
      ensures o.Done? <==> Done?
      ensures o.Done? ==> o.text == header + text + footer && o.next == next
      ensures o.Abort? ==> o.error == error
    {
      match this
      case Done(t, j) => Done(header + t + footer, j)
      case Abort(e) => Abort(e)
    }

    /** The same outcome seen as one statement of the enclosing block. */
    function AsStep(): (s: Step)
      ensures s.Emit? <==> Done?
      ensures s.Emit? ==> s.text == text && s.next == next
      ensures s.Fail? ==> s.error == error
    {
      match this
      case Done(t, j) => Emit(t, j)
      case Abort(e) => Fail(e)
    }
  }

  /** The preamble every generated file starts with: the class `Aout` and its
      no-argument constructor. */
  const Preamble: string :=
    ".class public Aout\n" +
    ".super java/lang/Object\n" +
    "\n" +
    ".method public <init>()V\n" +
    "    .limit stack 1\n" +
    "    .limit locals 1\n" +
    "    aload_0\n" +
    "    invokespecial java/lang/Object/<init>()V\n" +
    "    return\n" +
    ".end method\n" +
    "\n"

  /** The `.method` line of a declared procedure: `main` gets the JVM entry
      point descriptor `([Ljava/lang/String;)V`, every other name the
      descriptor `()V` of a method with no parameters returning void
      (section 4.3.3 of the Java Virtual Machine Specification). */
  function MethodHeader(name: string): (r: string)
    ensures ".method public static " + name <= r
  {
    if name == "main" then ".method public static main([Ljava/lang/String;)V\n"
    else ".method public static " + name + "()V\n"
  }

  /** Every procedure gets its own `.method` line, and only `main` gets the
      entry point descriptor. */
  lemma MethodHeaderNames(a: string, b: string)
    ensures MethodHeader(a) == MethodHeader(b) <==> a == b
    ensures MethodHeader(a) == MethodHeader("main") <==> a == "main"
  {
    if a != b {
      HeadersDiffer(a, b);
    }
    if a != "main" {
      HeadersDiffer(a, "main");
    }
  }

  /** Two different names never share a `.method` line: the descriptor's
      first character tells `main` from the rest, and the name lies between
      the fixed prefix and suffix. */
  lemma HeadersDiffer(a: string, b: string)
    requires a != b
    ensures MethodHeader(a) != MethodHeader(b)
  {
    var p := ".method public static ";
    var ra, rb := MethodHeader(a), MethodHeader(b);
    if a == "main" {
      assert rb == p + b + "()V\n";
      assert rb[|rb| - 4] == '(' && ra[|ra| - 4] == ';';
    } else if b == "main" {
      assert ra == p + a + "()V\n";
      assert ra[|ra| - 4] == '(' && rb[|rb| - 4] == ';';
    } else if |a| == |b| {
      assert a == ra[|p|..|p| + |a|];
      assert b == rb[|p|..|p| + |b|];
    }
  }

  /** The resource-limit directives of every declared procedure. */
  const LimitStack: string := "    .limit stack 2\n"
  const LimitLocals: string := "    .limit locals 1\n"
  const Limits: string := LimitStack + LimitLocals

  /** The lines that close every declared procedure. */
  const ReturnLine: string := "    return\n"
  const EndMethod: string := ".end method\n\n"
  const Epilogue: string := ReturnLine + EndMethod

  /** The call of the procedure `name` of class `Aout`. */
  function Invoke(name: string): string {
    "    invokestatic Aout/" + name + "()V\n"
  }

  /** The three instructions that print `text` on standard output; `text` is
      put between the quotes as it is, without escaping. */
  const GetOut: string := "    getstatic java/lang/System/out Ljava/io/PrintStream;\n"
  function Ldc(text: string): string {
    "    ldc \"" + text + "\"\n"
  }
  const CallPrint: string := "    invokevirtual java/io/PrintStream/print(Ljava/lang/String;)V\n"
  function PrintText(text: string): string {
    GetOut + Ldc(text) + CallPrint
  }

  /** The statement that starts at read position i: `Eof` or `}` ends the
      current block, `void`, an identifier or `printf` start the three
      statement forms, and any other token is an error. */
  function Statement(src: string, i: nat): (r: Step)
    requires i <= |src|
    ensures r.Stop? ==> i <= r.next <= |src|
    ensures r.Emit? ==> i < r.next <= |src|
    decreases |src| - i, 0
  {
    var t := Lex(src, i);
    match t.token.kind
    case Eof => Stop(t.next)
    case RBrace => Stop(t.next)
    case Void => Declaration(src, t.next).AsStep()
    case Ident => Call(src, t.token.lit, t.next).AsStep()
    case Printf => Print(src, t.next).AsStep()
    case _ => Fail(Unhandled(t.token))
  }

  /** The rest of a declaration after `void`: a name, `(`, `)`, `{`, and the
      body up to its closing `}` (or end of input). */
  function Declaration(src: string, i: nat): (r: Outcome)
    requires i <= |src|
    ensures r.Done? ==> i < r.next <= |src|
    decreases |src| - i, 2
  {
    var name := Lex(src, i);
    var lp := Lex(src, name.next);
    var rp := Lex(src, lp.next);
    var lb := Lex(src, rp.next);
    if name.token.kind != Ident then Abort(ExpectedIdentAfterVoid)
    else if lp.token.kind != LParen then Abort(ExpectedLParen)
    else if rp.token.kind != RParen then Abort(ExpectedRParen)
    else if lb.token.kind != LBrace then Abort(ExpectedLBrace)
    else Block(src, lb.next).Enclose(MethodHeader(name.token.lit) + Limits, Epilogue)
  }

  /** The rest of a call statement after the identifier `name`: `(`, `)`, `;`. */
  function Call(src: string, name: string, i: nat): (r: Outcome)
    requires i <= |src|
    ensures r.Done? ==> i < r.next <= |src|
  {
    var lp := Lex(src, i);
    var rp := Lex(src, lp.next);
    var semi := Lex(src, rp.next);
    if lp.token.kind != LParen then Abort(ExpectedLParen)
    else if rp.token.kind != RParen then Abort(ExpectedRParen)
    else if semi.token.kind != Semicolon then Abort(ExpectedSemicolon)
    else Done(Invoke(name), semi.next)
  }

  /** The rest of a `printf` statement: `(`, a string literal, `)`, `;`. */
  function Print(src: string, i: nat): (r: Outcome)
    requires i <= |src|
    ensures r.Done? ==> i < r.next <= |src|
  {
    var lp := Lex(src, i);
    var str := Lex(src, lp.next);
    var rp := Lex(src, str.next);
    var semi := Lex(src, rp.next);
    if lp.token.kind != LParen then Abort(ExpectedLParen)
    else if str.token.kind != String then Abort(ExpectedString)
    else if rp.token.kind != RParen then Abort(ExpectedRParen)
    else if semi.token.kind != Semicolon then Abort(ExpectedSemicolon)
    else Done(PrintText(str.token.lit), semi.next)
  }

  /** The block that starts at read position i: its statements in order, up
      to and including the `Eof` or `}` token that ends it. */
  function Block(src: string, i: nat): (r: Outcome)
    requires i <= |src|
    ensures r.Done? ==> i <= r.next <= |src|
    decreases |src| - i, 1
  {
    match Statement(src, i)
    case Stop(j) => Done("", j)
    case Fail(e) => Abort(e)
    case Emit(s, j) => Block(src, j).After(s)
  }

  /** The whole translation of a source text: the preamble followed by the
      top-level block, or the first syntax error. */
  function Compile(src: string): (r: Result<string>)
    ensures r.Ok? ==> Preamble <= r.value
  {
    match Block(src, 0)
    case Done(text, _) => Ok(Preamble + text)
    case Abort(e) => Err(e)
  }

  /** The generator: the lexer it pulls tokens from and the output buffer. */
  class CodeGen {
    const lexer: Lexer
    var code: string

    constructor (lexer: Lexer)
      ensures this.lexer == lexer
      ensures code == Preamble
    {
      this.lexer := lexer;
      code := Preamble;
    }

    /** Returns the text generated so far. */
    method GetCode() returns (s: string)
      ensures s == code
    {
      s := code;
    }

    /** Translates statements until an `Eof` or `}` token, appending their
        text to `code`; a declaration translates its body by a recursive call.
        On success it appends exactly the text of the block that starts at the
        lexer's read position. Whatever happens, `code` is only appended to. */
    method GenerateCode() returns (status: Status)
      requires lexer.Valid()
      modifies this, lexer
      ensures lexer.Valid() && old(lexer.readPos) <= lexer.readPos
      ensures old(code) <= code
      ensures match Block(lexer.src, old(lexer.readPos))
              case Done(text, j) =>
                status == Success && code == old(code) + text && lexer.readPos == j
              case Abort(e) => status == Failure(e)
      decreases |lexer.src| - lexer.readPos, 1
    {
      ghost var start := lexer.readPos;
      ghost var emitted := "";
      while true
        invariant lexer.Valid() && start <= lexer.readPos
        invariant code == old(code) + emitted
        invariant Block(lexer.src, start) == Block(lexer.src, lexer.readPos).After(emitted)
        decreases |lexer.src| - lexer.readPos
      {
        ghost var here := lexer.readPos;
        var token := lexer.NextToken();
        var done: Status;
        match token.kind {
          case Void =>
            done := GenerateDeclaration();
          case Ident =>
            done := GenerateCall(token.lit);
          case Printf =>
            done := GeneratePrintf();
          case Eof =>
            return Success;
          case RBrace =>
            return Success;
          case _ =>
            return Failure(Unhandled(token));
        }
        if done.Failure? {
          return done;
        }
        ghost var s := Statement(lexer.src, here).text;
        StepAppends(lexer.src, start, here, emitted, s, lexer.readPos);
        AppendAssoc(old(code), emitted, s);
        emitted := emitted + s;
      }
    }

    /** The `void` case of `generateCode`, after the keyword: checks the name,
        `(`, `)` and `{`, then appends the `.method` line, the limits, the
        body (by a recursive `GenerateCode`), `return` and `.end method`. */
    method GenerateDeclaration() returns (status: Status)
      requires lexer.Valid()
      modifies this, lexer
      ensures lexer.Valid() && old(lexer.readPos) <= lexer.readPos
      ensures old(code) <= code
      ensures match Declaration(lexer.src, old(lexer.readPos))
              case Done(text, j) =>
                status == Success && code == old(code) + text && lexer.readPos == j
              case Abort(e) => status == Failure(e)
      decreases |lexer.src| - lexer.readPos, 0
    {
      var peekToken := lexer.NextToken();
      if peekToken.kind != Ident {
        return Failure(ExpectedIdentAfterVoid);
      }
      var ident := peekToken.lit;
      peekToken := lexer.NextToken();
      if peekToken.kind != LParen {
        return Failure(ExpectedLParen);
      }
      peekToken := lexer.NextToken();
      if peekToken.kind != RParen {
        return Failure(ExpectedRParen);
      }
      peekToken := lexer.NextToken();
      if peekToken.kind != LBrace {
        return Failure(ExpectedLBrace);
      }
      ghost var bodyStart := lexer.readPos;
      assert Declaration(lexer.src, old(lexer.readPos))
          == Block(lexer.src, bodyStart).Enclose(MethodHeader(ident) + Limits, Epilogue);
      code := code + MethodHeader(ident);
      code := code + LimitStack;
      code := code + LimitLocals;
      ghost var beforeBody := code;
      var inner := GenerateCode();
      if inner.Failure? {
        return inner;
      }
      ghost var body := Block(lexer.src, bodyStart).text;
      code := code + ReturnLine;
      code := code + EndMethod;
      Regroup(old(code), MethodHeader(ident), LimitStack, LimitLocals, body, ReturnLine, EndMethod);
      status := Success;
    }

    /** The identifier case of `generateCode`: checks `(`, `)` and `;`, then
        appends the `invokestatic` line for `name`. */
    method GenerateCall(name: string) returns (status: Status)
      requires lexer.Valid()
      modifies this, lexer
      ensures lexer.Valid() && old(lexer.readPos) <= lexer.readPos
      ensures old(code) <= code
      ensures match Call(lexer.src, name, old(lexer.readPos))
              case Done(text, j) =>
                status == Success && code == old(code) + text && lexer.readPos == j
              case Abort(e) => status == Failure(e)
    {
      var peekToken := lexer.NextToken();
      if peekToken.kind != LParen {
        return Failure(ExpectedLParen);
      }
      peekToken := lexer.NextToken();
      if peekToken.kind != RParen {
        return Failure(ExpectedRParen);
      }
      peekToken := lexer.NextToken();
      if peekToken.kind != Semicolon {
        return Failure(ExpectedSemicolon);
      }
      code := code + Invoke(name);
      status := Success;
    }

    /** The `printf` case of `generateCode`: checks `(`, a string literal, `)`
        and `;`, then appends the three printing instructions. */
    method GeneratePrintf() returns (status: Status)
      requires lexer.Valid()
      modifies this, lexer
      ensures lexer.Valid() && old(lexer.readPos) <= lexer.readPos
      ensures old(code) <= code
      ensures match Print(lexer.src, old(lexer.readPos))
              case Done(text, j) =>
                status == Success && code == old(code) + text && lexer.readPos == j
              case Abort(e) => status == Failure(e)
    {
      var peekToken := lexer.NextToken();
      if peekToken.kind != LParen {
        return Failure(ExpectedLParen);
      }
      peekToken := lexer.NextToken();
      if peekToken.kind != String {
        return Failure(ExpectedString);
      }
      var str := peekToken.lit;
      peekToken := lexer.NextToken();
      if peekToken.kind != RParen {
        return Failure(ExpectedRParen);
      }
      peekToken := lexer.NextToken();
      if peekToken.kind != Semicolon {
        return Failure(ExpectedSemicolon);
      }
      code := code + GetOut;
      code := code + Ldc(str);
      code := code + CallPrint;
      AppendAssoc(old(code), GetOut, Ldc(str));
      AppendAssoc(old(code), GetOut + Ldc(str), CallPrint);
      status := Success;
    }
  }

  /** One loop step of `GenerateCode`: a statement at `here` that emits `s`
      and ends at `next` extends what the block from `start` has emitted. */
  lemma StepAppends(src: string, start: nat, here: nat, emitted: string, s: string, next: nat)
    requires start <= |src| && here <= |src|
    requires Statement(src, here) == Emit(s, next)
    requires Block(src, start) == Block(src, here).After(emitted)
    ensures next <= |src|
    ensures Block(src, start) == Block(src, next).After(emitted + s)
  {
    assert Block(src, here) == Block(src, next).After(s);
    AfterAfter(Block(src, next), s, emitted);
  }

  /** Emitting `first` and then `second` before an outcome is emitting
      `first + second` before it. */
  lemma AfterAfter(o: Outcome, second: string, first: string)
    ensures o.After(second).After(first) == o.After(first + second)
  {
    if o.Done? {
      assert first + (second + o.text) == (first + second) + o.text;
    }
  }

  /** The pieces a declaration appends one after the other, grouped as its text. */
  lemma Regroup(prior: string, header: string, stack: string, locals: string, body: string, ret: string, end: string)
    ensures prior + header + stack + locals + body + ret + end
         == prior + ((header + (stack + locals)) + body + (ret + end))
  {
  }

  /** Appending two pieces one after the other is appending them joined. */
  lemma AppendAssoc(a: string, b: string, c: string)
    ensures a + b + c == a + (b + c)
  {
  }

  /** The translation as `Compiler.main` runs it, without the file I/O: one
      lexer and one generator over the source text, then the buffer. */
  method CompileSource(src: string) returns (r: Result<string>)
    ensures r == Compile(src)
  {
    var lexer := new Lexer(src);
    var codegen := new CodeGen(lexer);
    var status := codegen.GenerateCode();
    if status.Failure? {
      return Err(status.error);
    }
    var code := codegen.GetCode();
    r := Ok(code);
  }
}
