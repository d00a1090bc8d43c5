/** The whole compiler: tokenizer, parser, transformer and code generator in sequence, as
    `main` runs them on its fixed input. */
module Compiler {
  import opened Results
  import opened Tokens
  import S = SourceAst
  import Parsing
  import Transform
  import Generation
  import Reading
  import T = TargetAst

  /** The compiler with the intended code generator. */
  function Compiled(input: string): Result<string> {
    var tokens :- Lex(input);
    var ast :- Parsing.Parse(tokens);
    Ok(Generation.GenerateProgram(Transform.Lower(ast)))
  }

  /** The compiler with the code generator as written. */
  function CompiledAsWritten(input: string): Result<string> {
    var tokens :- Lex(input);
    var ast :- Parsing.Parse(tokens);
    Ok(Generation.EmitProgram(Transform.Lower(ast)))
  }

  /** The four stages of `main` on an input of the caller's choosing; the text it prints is
      the result. */
  method Compile(input: string) returns (r: Result<string>)
    ensures r == CompiledAsWritten(input)
  {
    var tokens :- Tokenizer(input);
    var ast :- Parsing.Parser(tokens);
    var astNew := Transform.Transformer(ast);
    var out := Generation.CodeGeneratorProgram(astNew);
    return Ok(out);
  }

  // ---------------------------------------------------------------------------
  // End to end

  /** A tree whose leaves are what the tokenizer can produce: numbers are digit runs, names
      letter runs, and strings have no quote. */
  predicate Scannable(n: S.Node)
    decreases n
  {
    match n
    case NumberLiteral(v) => WellFormed(Token(Number, v))
    case StringLiteral(v) => WellFormed(Token(Str, v))
    case CallExpression(name, params) =>
      WellFormed(Token(Name, name)) && forall k :: 0 <= k < |params| ==> Scannable(params[k])
  }

  lemma {:induction false} TokensOfWellFormed(n: S.Node)
    requires Scannable(n)
    ensures forall t <- Parsing.TokensOf(n) :: WellFormed(t)
    decreases n
  {
    if n.CallExpression? {
      TokensOfSeqWellFormed(n.params);
    }
  }

  lemma {:induction false} TokensOfSeqWellFormed(ns: seq<S.Node>)
    requires forall k :: 0 <= k < |ns| ==> Scannable(ns[k])
    ensures forall t <- Parsing.TokensOfSeq(ns) :: WellFormed(t)
    decreases ns
  {
    if ns != [] {
      TokensOfWellFormed(ns[0]);
      TokensOfSeqWellFormed(ns[1..]);
    }
  }

  /** Every program the tokenizer can spell compiles, written out with a space after each
      token, to the intended text of its lowering. */
  lemma CompileSpelled(p: S.Program)
    requires forall k :: 0 <= k < |p.body| ==> Scannable(p.body[k])
    ensures Compiled(Spell(Parsing.TokensOfProgram(p))) == Ok(Generation.GenerateProgram(Transform.Lower(p)))
    ensures CompiledAsWritten(Spell(Parsing.TokensOfProgram(p))) == Ok(Generation.EmitProgram(Transform.Lower(p)))
  {
    TokensOfSeqWellFormed(p.body);
    LexSpell(Parsing.TokensOfProgram(p));
    Parsing.ParseTokensOf(p);
  }

  /** Every call has at least one parameter. */
  predicate HasArguments(n: S.Node)
    decreases n
  {
    match n
    case CallExpression(_, params) =>
      params != [] && forall k :: 0 <= k < |params| ==> HasArguments(params[k])
    case _ => true
  }

  lemma {:induction false} LowerHasArguments(n: S.Node, inCall: bool)
    requires HasArguments(n)
    ensures Generation.NoEmptyCall(Transform.LowerNode(n, inCall))
    decreases n
  {
    if n.CallExpression? {
      LowerSeqHasArguments(n.params);
    }
  }

  lemma {:induction false} LowerSeqHasArguments(ns: seq<S.Node>)
    requires forall k :: 0 <= k < |ns| ==> HasArguments(ns[k])
    ensures forall k :: 0 <= k < |ns| ==> Generation.NoEmptyCall(Transform.LowerSeq(ns, true)[k])
    decreases ns
  {
    if ns != [] {
      LowerHasArguments(ns[0], true);
      LowerSeqHasArguments(ns[1..]);
      forall k | 0 <= k < |ns|
        ensures Generation.NoEmptyCall(Transform.LowerSeq(ns, true)[k])
      {
        if k > 0 {
          assert Transform.LowerSeq(ns, true)[k] == Transform.LowerSeq(ns[1..], true)[k - 1];
        }
      }
    }
  }

  lemma {:induction false} LowerBodyHasArguments(ns: seq<S.Node>)
    requires forall k :: 0 <= k < |ns| ==> HasArguments(ns[k])
    ensures forall k :: 0 <= k < |ns| ==> Generation.NoEmptyCall(Transform.LowerSeq(ns, false)[k])
    decreases ns
  {
    if ns != [] {
      LowerHasArguments(ns[0], false);
      LowerBodyHasArguments(ns[1..]);
      forall k | 0 <= k < |ns|
        ensures Generation.NoEmptyCall(Transform.LowerSeq(ns, false)[k])
      {
        if k > 0 {
          assert Transform.LowerSeq(ns, false)[k] == Transform.LowerSeq(ns[1..], false)[k - 1];
        }
      }
    }
  }

  /** The compiler as written produces the intended text whenever every call it parses has a
      parameter, and fails exactly when the intended one does. */
  lemma CompiledAgrees(input: string)
    ensures CompiledAsWritten(input).Fail? <==> Compiled(input).Fail?
    ensures Compiled(input).Fail? ==> CompiledAsWritten(input) == Compiled(input)
    ensures Lex(input).Ok? && Parsing.Parse(Lex(input).value).Ok?
      && (forall k :: 0 <= k < |Parsing.Parse(Lex(input).value).value.body|
            ==> HasArguments(Parsing.Parse(Lex(input).value).value.body[k]))
      ==> CompiledAsWritten(input) == Compiled(input)
  {
    if Lex(input).Ok? && Parsing.Parse(Lex(input).value).Ok? {
      var ast := Parsing.Parse(Lex(input).value).value;
      if forall k :: 0 <= k < |ast.body| ==> HasArguments(ast.body[k]) {
        LowerBodyHasArguments(ast.body);
        Generation.EmitLinesAgree(Transform.Lower(ast).body);
      }
    }
  }

  /** An expression written as in `main`'s input: a call as "(", its name, a space before each
      parameter and ")". */
  function Text(n: S.Node): string
    decreases n
  {
    match n
    case NumberLiteral(v) => v
    case StringLiteral(v) => "\"" + v + "\""
    case CallExpression(name, params) => "(" + name + TextParams(params) + ")"
  }

  function TextParams(ns: seq<S.Node>): string
    decreases ns
  {
    if ns == [] then "" else " " + Text(ns[0]) + TextParams(ns[1..])
  }

  /** An expression written out scans to its tokens, whatever follows it, as long as a number
      is not followed by a digit. */
  lemma {:induction false} LexText(n: S.Node, rest: string)
    requires Scannable(n)
    requires n.NumberLiteral? ==> |rest| > 0 && !IsDigit(rest[0])
    ensures Lex(Text(n) + rest) == Prefix(Parsing.TokensOf(n), Lex(rest))
    decreases n
  {
    match n
    case NumberLiteral(v) =>
      LexNumberRun(v, rest);
    case StringLiteral(v) =>
      LexStringLiteral(v, rest);
    case CallExpression(name, params) =>
      LexParams(params, [')'] + rest);
      LexNameAhead(name, params, [')'] + rest);
      LexCall(name, TextParams(params), Parsing.TokensOfSeq(params), rest);
  }

  /** A call scans to "(", its name, the tokens of its parameters and ")". */
  lemma LexCall(name: string, params: string, tokens: seq<Token>, rest: string)
    requires WellFormed(Token(Name, name))
    requires var after := params + ([')'] + rest); |after| > 0 && !IsLetter(after[0])
    requires Lex(params + ([')'] + rest)) == Prefix(tokens, Lex([')'] + rest))
    ensures Lex("(" + name + params + ")" + rest)
      == Prefix([Token(Paren, "("), Token(Name, name)] + tokens + [Token(Paren, ")")], Lex(rest))
  {
    var inner := params + ([')'] + rest);
    LexParenAndSpace(')', rest);
    PrefixPrefix(tokens, [Token(Paren, ")")], Lex(rest));
    LexNameRun(name, inner);
    LexParenAndSpace('(', name + inner);
    PrefixPrefix([Token(Paren, "(")], [Token(Name, name)], Lex(inner));
    var head := [Token(Paren, "("), Token(Name, name)];
    assert [Token(Paren, "(")] + [Token(Name, name)] == head;
    PrefixPrefix(head, tokens + [Token(Paren, ")")], Lex(rest));
    CallTextAssoc(name, params, rest);
    assert Lex(['('] + (name + inner)) == Prefix(head, Prefix(tokens + [Token(Paren, ")")], Lex(rest)));
    assert head + (tokens + [Token(Paren, ")")]) == head + tokens + [Token(Paren, ")")];
  }

  lemma CallTextAssoc(name: string, params: string, rest: string)
    ensures "(" + name + params + ")" + rest == ['('] + (name + (params + ([')'] + rest)))
  {
  }

  /** What follows a call's name starts with a space or a `)`. */
  lemma LexNameAhead(name: string, params: seq<S.Node>, rest: string)
    requires |rest| > 0 && rest[0] == ')'
    ensures var inner := TextParams(params) + rest; |inner| > 0 && !IsLetter(inner[0])
  {
    ParamsAhead(params, rest);
  }

  lemma {:induction false} LexParams(ns: seq<S.Node>, rest: string)
    requires forall k :: 0 <= k < |ns| ==> Scannable(ns[k])
    requires |rest| > 0 && !IsDigit(rest[0])
    ensures Lex(TextParams(ns) + rest) == Prefix(Parsing.TokensOfSeq(ns), Lex(rest))
    decreases ns
  {
    if ns == [] {
      assert TextParams(ns) + rest == rest;
      assert Lex(rest).Ok? ==> [] + Lex(rest).value == Lex(rest).value;
    } else {
      var after := TextParams(ns[1..]) + rest;
      ParamsAhead(ns[1..], rest);
      LexParams(ns[1..], rest);
      LexText(ns[0], after);
      LexParam(Text(ns[0]), TextParams(ns[1..]), rest,
        Parsing.TokensOf(ns[0]), Parsing.TokensOfSeq(ns[1..]));
    }
  }

  /** What follows a parameter starts with a space or with what follows the parameters. */
  lemma ParamsAhead(ns: seq<S.Node>, rest: string)
    requires |rest| > 0
    ensures var after := TextParams(ns) + rest;
      |after| > 0 && (after[0] == ' ' || after[0] == rest[0])
  {
    if ns != [] {
      assert (TextParams(ns) + rest)[0] == ' ';
    } else {
      assert TextParams(ns) + rest == rest;
    }
  }

  /** A space, a parameter and the parameters after it. */
  lemma LexParam(text: string, params: string, rest: string, first: seq<Token>, others: seq<Token>)
    requires Lex(text + (params + rest)) == Prefix(first, Lex(params + rest))
    requires Lex(params + rest) == Prefix(others, Lex(rest))
    ensures Lex(" " + text + params + rest) == Prefix(first + others, Lex(rest))
  {
    LexParenAndSpace(' ', text + (params + rest));
    PrefixPrefix(first, others, Lex(rest));
    ParamTextSplit(text, params, rest);
  }

  lemma ParamTextSplit(text: string, params: string, rest: string)
    ensures " " + text + params + rest == [' '] + (text + (params + rest))
  {
  }

  // ---------------------------------------------------------------------------
  // The output determines the program

  lemma {:induction false} LowerReadable(n: S.Node)
    requires Scannable(n)
    ensures Reading.Readable(Transform.LowerNode(n, true))
    ensures Reading.StatementReadable(Transform.LowerNode(n, false))
    decreases n
  {
    if n.CallExpression? {
      LowerSeqReadable(n.params);
    }
  }

  lemma {:induction false} LowerSeqReadable(ns: seq<S.Node>)
    requires forall k :: 0 <= k < |ns| ==> Scannable(ns[k])
    ensures forall k :: 0 <= k < |ns| ==> Reading.Readable(Transform.LowerSeq(ns, true)[k])
    decreases ns
  {
    if ns != [] {
      LowerReadable(ns[0]);
      LowerSeqReadable(ns[1..]);
      forall k | 0 <= k < |ns|
        ensures Reading.Readable(Transform.LowerSeq(ns, true)[k])
      {
        if k > 0 {
          assert Transform.LowerSeq(ns, true)[k] == Transform.LowerSeq(ns[1..], true)[k - 1];
        }
      }
    }
  }

  lemma {:induction false} LowerBodyReadable(ns: seq<S.Node>)
    requires forall k :: 0 <= k < |ns| ==> Scannable(ns[k])
    ensures forall k :: 0 <= k < |ns| ==> Reading.StatementReadable(Transform.LowerSeq(ns, false)[k])
    decreases ns
  {
    if ns != [] {
      LowerReadable(ns[0]);
      LowerBodyReadable(ns[1..]);
      forall k | 0 <= k < |ns|
        ensures Reading.StatementReadable(Transform.LowerSeq(ns, false)[k])
      {
        if k > 0 {
          assert Transform.LowerSeq(ns, false)[k] == Transform.LowerSeq(ns[1..], false)[k - 1];
        }
      }
    }
  }

  /** The intended output of a program with scannable leaves reads back to its lowering. */
  lemma GeneratedReadsBack(p: S.Program)
    requires forall k :: 0 <= k < |p.body| ==> Scannable(p.body[k])
    ensures Reading.ReadLines(Generation.GenerateProgram(Transform.Lower(p))) == Some(Transform.Lower(p).body)
  {
    LowerBodyReadable(p.body);
    Reading.ReadLinesGenerate(Transform.Lower(p).body);
  }

  /** Two programs with scannable leaves and the same intended output are the same program. */
  lemma GeneratedInjective(p: S.Program, q: S.Program)
    requires forall k :: 0 <= k < |p.body| ==> Scannable(p.body[k])
    requires forall k :: 0 <= k < |q.body| ==> Scannable(q.body[k])
    requires Generation.GenerateProgram(Transform.Lower(p)) == Generation.GenerateProgram(Transform.Lower(q))
    ensures p == q
  {
    GeneratedReadsBack(p);
    GeneratedReadsBack(q);
    Transform.LowerInjective(p, q);
  }

  /** A single call written as in `main`'s input compiles to the text of its lowering, with
      either code generator. */
  lemma CompileText(n: S.Node)
    requires n.CallExpression? && Scannable(n)
    ensures Compiled(Text(n)) == Ok(Generation.GenerateProgram(Transform.Lower(S.Program([n]))))
    ensures CompiledAsWritten(Text(n)) == Ok(Generation.EmitProgram(Transform.Lower(S.Program([n]))))
  {
    LexCallText(n);
    ParseOne(n);
  }

  lemma LexCallText(n: S.Node)
    requires n.CallExpression? && Scannable(n)
    ensures Lex(Text(n)) == Ok(Parsing.TokensOf(n))
  {
    LexText(n, "");
    assert Text(n) + "" == Text(n);
    assert Parsing.TokensOf(n) + [] == Parsing.TokensOf(n);
  }

  lemma ParseOne(n: S.Node)
    ensures Parsing.Parse(Parsing.TokensOf(n)) == Ok(S.Program([n]))
  {
    Parsing.ParseTokensOf(S.Program([n]));
    assert [n][1..] == [] && [n][0] == n;
    assert Parsing.TokensOfSeq([]) == [];
    assert Parsing.TokensOfSeq([n]) == Parsing.TokensOf(n) + [];
    assert Parsing.TokensOf(n) + [] == Parsing.TokensOf(n);
  }

  // ---------------------------------------------------------------------------
  // Concrete inputs

  /** The tokens of `main`'s input. */
  function MainTokens(): seq<Token> {
    [Token(Paren, "("), Token(Name, "add"), Token(Number, "2"),
     Token(Paren, "("), Token(Name, "sub"), Token(Number, "3"),
     Token(Paren, "("), Token(Name, "test"), Token(Number, "4"), Token(Number, "5"),
     Token(Paren, ")"), Token(Paren, ")"), Token(Paren, ")")]
  }

  /** The expression of `main`'s input, from the innermost call out. */
  function MainTest(): S.Node {
    S.CallExpression("test", [S.NumberLiteral("4"), S.NumberLiteral("5")])
  }

  function MainSub(): S.Node {
    S.CallExpression("sub", [S.NumberLiteral("3"), MainTest()])
  }

  function MainCall(): S.Node {
    S.CallExpression("add", [S.NumberLiteral("2"), MainSub()])
  }

  lemma TextTwo(name: string, a: S.Node, b: S.Node)
    ensures Text(S.CallExpression(name, [a, b])) == "(" + name + " " + Text(a) + " " + Text(b) + ")"
  {
    assert [a, b][1..] == [b] && [b][1..] == [];
    assert TextParams([b]) == " " + Text(b) + "";
  }

  lemma MainTextTest()
    ensures Text(MainTest()) == "(test 4 5)"
  {
    TextTwo("test", S.NumberLiteral("4"), S.NumberLiteral("5"));
    assert Text(S.NumberLiteral("4")) == "4" && Text(S.NumberLiteral("5")) == "5";
    TestPieces();
  }

  lemma MainTextSub()
    ensures Text(MainSub()) == "(sub 3 (test 4 5))"
  {
    MainTextTest();
    TextTwo("sub", S.NumberLiteral("3"), MainTest());
    assert Text(S.NumberLiteral("3")) == "3";
    SubPieces();
  }

  lemma MainText()
    ensures Text(MainCall()) == "(add 2 (sub 3 (test 4 5)))"
  {
    MainTextSub();
    TextTwo("add", S.NumberLiteral("2"), MainSub());
    assert Text(S.NumberLiteral("2")) == "2";
    AddPieces();
  }

  // The texts of `main`'s example assembled from their parts.

  lemma TestPieces()
    ensures "(" + "test" + " " + "4" + " " + "5" + ")" == "(test 4 5)"
    ensures "test" + "(" + "4" + "," + "5" + ")" == "test(4,5)"
  {
  }

  lemma SubPieces()
    ensures "(" + "sub" + " " + "3" + " " + "(test 4 5)" + ")" == "(sub 3 (test 4 5))"
    ensures "sub" + "(" + "3" + "," + "test(4,5)" + ")" == "sub(3,test(4,5))"
  {
  }

  lemma AddPieces()
    ensures "(" + "add" + " " + "2" + " " + "(sub 3 (test 4 5))" + ")" == "(add 2 (sub 3 (test 4 5)))"
    ensures "add" + "(" + "2" + "," + "sub(3,test(4,5))" + ")" == "add(2,sub(3,test(4,5)))"
  {
  }

  lemma LinePieces()
    ensures "add(2,sub(3,test(4,5)))" + ";" + "\n" == "add(2,sub(3,test(4,5)));\n"
  {
  }

  lemma MainTokensOf()
    ensures Parsing.TokensOf(MainCall()) == MainTokens()
  {
  }

  lemma MainShape()
    ensures Scannable(MainCall()) && HasArguments(MainCall())
  {
    assert Scannable(MainTest()) && HasArguments(MainTest());
    assert Scannable(MainSub()) && HasArguments(MainSub());
  }

  /** `main`'s input scans to its thirteen tokens and parses to one call of `add`. */
  lemma MainLexesAndParses()
    ensures Lex("(add 2 (sub 3 (test 4 5)))") == Ok(MainTokens())
    ensures Parsing.Parse(MainTokens()) == Ok(S.Program([MainCall()]))
  {
    MainText();
    MainTokensOf();
    MainShape();
    LexCallText(MainCall());
    ParseOne(MainCall());
  }

  /** The calls of `main`'s input after the transformer. */
  function LoweredTest(): T.Node {
    T.CallExpression(T.Identifier("test"), [T.NumberLiteral("4"), T.NumberLiteral("5")])
  }

  function LoweredSub(): T.Node {
    T.CallExpression(T.Identifier("sub"), [T.NumberLiteral("3"), LoweredTest()])
  }

  function LoweredCall(): T.Node {
    T.CallExpression(T.Identifier("add"), [T.NumberLiteral("2"), LoweredSub()])
  }

  lemma LowerTwo(a: S.Node, b: S.Node)
    ensures Transform.LowerSeq([a, b], true) == [Transform.LowerNode(a, true), Transform.LowerNode(b, true)]
  {
    assert [a, b][1..] == [b] && [b][1..] == [];
  }

  lemma MainLowers()
    ensures Transform.Lower(S.Program([MainCall()])).body == [T.ExpressionStatement(LoweredCall())]
  {
    LowerTwo(S.NumberLiteral("4"), S.NumberLiteral("5"));
    assert Transform.LowerNode(MainTest(), true) == LoweredTest();
    LowerTwo(S.NumberLiteral("3"), MainTest());
    assert Transform.LowerNode(MainSub(), true) == LoweredSub();
    LowerTwo(S.NumberLiteral("2"), MainSub());
    assert [MainCall()][1..] == [];
  }

  lemma GenerateTwo(name: string, a: T.Node, b: T.Node)
    ensures Generation.Generate(T.CallExpression(T.Identifier(name), [a, b]))
      == name + "(" + Generation.Generate(a) + "," + Generation.Generate(b) + ")"
  {
    assert [a, b][..1] == [a];
    assert Generation.Join([a, b]) == Generation.Generate(a) + "," + Generation.Generate(b);
  }

  lemma LinesOne(t: T.Node)
    ensures Generation.GenerateLines([t]) == Generation.Generate(t) + "\n"
    ensures Generation.EmitLines([t]) == Generation.Emit(t) + "\n"
  {
    var ts := [t];
    assert ts[..|ts| - 1] == [] && ts[|ts| - 1] == t;
    assert Generation.GenerateLines(ts) == Generation.GenerateLines([]) + Generation.Generate(t) + "\n";
    assert Generation.EmitLines(ts) == Generation.EmitLines([]) + Generation.Emit(t) + "\n";
  }

  lemma MainGeneratesTest()
    ensures Generation.Generate(LoweredTest()) == "test(4,5)"
  {
    GenerateTwo("test", T.NumberLiteral("4"), T.NumberLiteral("5"));
    assert Generation.Generate(T.NumberLiteral("4")) == "4" && Generation.Generate(T.NumberLiteral("5")) == "5";
    TestPieces();
  }

  lemma MainGeneratesSub()
    ensures Generation.Generate(LoweredSub()) == "sub(3,test(4,5))"
  {
    MainGeneratesTest();
    GenerateTwo("sub", T.NumberLiteral("3"), LoweredTest());
    assert Generation.Generate(T.NumberLiteral("3")) == "3";
    SubPieces();
  }

  lemma MainGeneratesCall()
    ensures Generation.Generate(LoweredCall()) == "add(2,sub(3,test(4,5)))"
  {
    MainGeneratesSub();
    GenerateTwo("add", T.NumberLiteral("2"), LoweredSub());
    assert Generation.Generate(T.NumberLiteral("2")) == "2";
    AddPieces();
  }

  lemma MainGenerates()
    ensures Generation.GenerateProgram(Transform.Lower(S.Program([MainCall()]))) == "add(2,sub(3,test(4,5)));\n"
    ensures Generation.EmitProgram(Transform.Lower(S.Program([MainCall()]))) == "add(2,sub(3,test(4,5)));\n"
  {
    MainGeneratesLines();
    MainShape();
    LowerBodyHasArguments([MainCall()]);
    Generation.EmitLinesAgree(Transform.Lower(S.Program([MainCall()])).body);
  }

  lemma MainGeneratesLines()
    ensures Generation.GenerateLines([T.ExpressionStatement(LoweredCall())]) == "add(2,sub(3,test(4,5)));\n"
    ensures Transform.Lower(S.Program([MainCall()])).body == [T.ExpressionStatement(LoweredCall())]
  {
    MainLowers();
    MainGeneratesCall();
    LinesOne(T.ExpressionStatement(LoweredCall()));
    assert Generation.Generate(T.ExpressionStatement(LoweredCall())) == "add(2,sub(3,test(4,5)))" + ";";
    LinePieces();
  }

  /** `main`'s input compiles to "add(2,sub(3,test(4,5)));" and a line break, with either
      code generator. */
  lemma MainCompiles()
    ensures Compiled("(add 2 (sub 3 (test 4 5)))") == Ok("add(2,sub(3,test(4,5)));\n")
    ensures CompiledAsWritten("(add 2 (sub 3 (test 4 5)))") == Ok("add(2,sub(3,test(4,5)));\n")
  {
    MainText();
    MainShape();
    CompileText(MainCall());
    MainGenerates();
  }

  /** A call without parameters: "f)" as written, "f()" as intended. */
  lemma EmptyCallCompiles()
    ensures Compiled("(f)") == Ok("f();\n")
    ensures CompiledAsWritten("(f)") == Ok("f);\n")
  {
    EmptyCallText();
    CompileText(S.CallExpression("f", []));
    EmptyCallGenerates();
  }

  lemma EmptyCallGenerates()
    ensures Generation.GenerateProgram(Transform.Lower(S.Program([S.CallExpression("f", [])]))) == "f();\n"
    ensures Generation.EmitProgram(Transform.Lower(S.Program([S.CallExpression("f", [])]))) == "f);\n"
  {
    EmptyCallLowers();
    var call := T.CallExpression(T.Identifier("f"), []);
    LinesOne(T.ExpressionStatement(call));
    Generation.EmptyCallMisprinted("f");
    assert Generation.Generate(T.ExpressionStatement(call)) == "f()" + ";";
    assert Generation.Emit(T.ExpressionStatement(call)) == "f)" + ";";
  }

  lemma EmptyCallText()
    ensures Text(S.CallExpression("f", [])) == "(f)" && Scannable(S.CallExpression("f", []))
  {
  }

  lemma EmptyCallLowers()
    ensures Transform.Lower(S.Program([S.CallExpression("f", [])])).body
      == [T.ExpressionStatement(T.CallExpression(T.Identifier("f"), []))]
  {
    assert [S.CallExpression("f", [])][1..] == [];
  }

  /** Empty input compiles to empty output. */
  lemma EmptyCompiles()
    ensures Compiled("") == Ok("") && CompiledAsWritten("") == Ok("")
  {
    assert Parsing.ParseBody([], 0) == Ok([]);
  }

  /** A number at the very end of the input reads past it: the tokenizer fails before the
      parser could notice the missing `)`. */
  lemma TrailingNumberFails()
    ensures Compiled("(add 2 3") == Fail(InputExhausted)
    ensures CompiledAsWritten("(add 2 3") == Fail(InputExhausted)
  {
    TrailingLex();
  }

  lemma TrailingLex()
    ensures Lex("(add 2 3") == Fail(InputExhausted)
  {
    TrailingName();
    assert "(add 2 3"[1..] == "add 2 3";
    LexFailsAfter("(add 2 3");
  }

  /** A paren or a space in front of input that fails does not change the failure. */
  lemma LexFailsAfter(s: string)
    requires |s| > 0 && (s[0] == '(' || s[0] == ')' || IsSpace(s[0])) && Lex(s[1..]).Fail?
    ensures Lex(s) == Lex(s[1..])
  {
  }

  lemma TrailingName()
    ensures Lex("add 2 3") == Fail(InputExhausted)
  {
    TrailingTail();
    LexNameRun("add", " 2 3");
    assert "add" + " 2 3" == "add 2 3";
  }

  lemma TrailingTail()
    ensures Lex(" 2 3") == Fail(InputExhausted)
  {
    TrailingDigit();
    LexNumberRun("2", " 3");
    assert "2" + " 3" == "2 3";
    LexParenAndSpace(' ', "2 3");
    assert [' '] + "2 3" == " 2 3";
  }

  lemma TrailingDigit()
    ensures Lex(" 3") == Fail(InputExhausted)
  {
    assert SpanEnd("3", 0, IsDigit) == 1 by {
      SpanEndAt("3", 0, 1, IsDigit);
    }
    LexParenAndSpace(' ', "3");
    assert [' '] + "3" == " 3";
  }


}
