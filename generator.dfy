/** The code generator: the transformer's tree printed as C-like calls.

    `Emit` is `codeGenerator` as written. It builds a call's argument list as "(" followed by
    every argument and a comma, then drops the last character and closes the parenthesis; for
    a call without arguments the dropped character is the opening parenthesis, so `f()` prints
    as "f)". `Generate` is the evidently intended printer, which the rest of the model uses;
    `EmitAgrees` shows that the two agree on every tree without an argument-less call. */
module Generation {
  import T = TargetAst

  // ---------------------------------------------------------------------------
  // Character counts

  function Count(c: char, s: string): (n: nat)
    ensures n <= |s|
    decreases |s|
  {
    if s == [] then 0 else (if s[0] == c then 1 else 0) + Count(c, s[1..])
  }

  lemma {:induction false} CountAppend(c: char, a: string, b: string)
    ensures Count(c, a + b) == Count(c, a) + Count(c, b)
    decreases |a|
  {
    if a != [] {
      assert (a + b)[0] == a[0] && (a + b)[1..] == a[1..] + b;
      CountAppend(c, a[1..], b);
    } else {
      assert a + b == b;
    }
  }

  lemma CountChar(c: char, d: char)
    ensures Count(c, [d]) == if c == d then 1 else 0
  {
    assert [d][1..] == [];
  }

  /** Text without the characters the generator adds around and between nodes. */
  predicate Plain(s: string) {
    forall k :: 0 <= k < |s| ==> s[k] != '(' && s[k] != ')' && s[k] != '\n'
  }

  lemma {:induction false} CountPlain(s: string)
    requires Plain(s)
    ensures Count('(', s) == 0 && Count(')', s) == 0 && Count('\n', s) == 0
    decreases |s|
  {
    if s != [] {
      CountPlain(s[1..]);
    }
  }

  // ---------------------------------------------------------------------------
  // Measures of a tree

  /** Every number, string and identifier in the tree is plain text. */
  predicate PlainLeaves(t: T.Node)
    decreases t
  {
    match t
    case NumberLiteral(v) => Plain(v)
    case StringLiteral(v) => Plain(v)
    case Identifier(name) => Plain(name)
    case ExpressionStatement(e) => PlainLeaves(e)
    case CallExpression(callee, args) =>
      PlainLeaves(callee) && forall k :: 0 <= k < |args| ==> PlainLeaves(args[k])
  }

  /** The number of call nodes in a tree. */
  function Calls(t: T.Node): nat
    decreases t
  {
    match t
    case ExpressionStatement(e) => Calls(e)
    case CallExpression(callee, args) => 1 + Calls(callee) + CallsSeq(args)
    case _ => 0
  }

  function CallsSeq(ts: seq<T.Node>): nat
    decreases ts
  {
    if ts == [] then 0 else CallsSeq(ts[..|ts| - 1]) + Calls(ts[|ts| - 1])
  }

  /** The number of call nodes without arguments in a tree. */
  function EmptyCalls(t: T.Node): nat
    decreases t
  {
    match t
    case ExpressionStatement(e) => EmptyCalls(e)
    case CallExpression(callee, args) =>
      (if args == [] then 1 else 0) + EmptyCalls(callee) + EmptyCallsSeq(args)
    case _ => 0
  }

  function EmptyCallsSeq(ts: seq<T.Node>): nat
    decreases ts
  {
    if ts == [] then 0 else EmptyCallsSeq(ts[..|ts| - 1]) + EmptyCalls(ts[|ts| - 1])
  }

  // ---------------------------------------------------------------------------
  // `codeGenerator` as written

  function Emit(t: T.Node): string
    decreases t
  {
    match t
    case NumberLiteral(v) => v
    case StringLiteral(v) => "\"" + v + "\""
    case Identifier(name) => name
    case ExpressionStatement(e) => Emit(e) + ";"
    case CallExpression(callee, args) => Emit(callee) + Close("(" + Terminated(args))
  }

  /** Every argument followed by a comma. */
  function Terminated(ts: seq<T.Node>): string
    decreases ts
  {
    if ts == [] then "" else Terminated(ts[..|ts| - 1]) + Emit(ts[|ts| - 1]) + ","
  }

  /** Drop the last character and close the parenthesis. */
  function Close(s: string): (r: string)
    requires |s| > 0
    ensures |r| == |s| && r[..|s| - 1] == s[..|s| - 1] && r[|s| - 1] == ')'
  {
    s[..|s| - 1] + ")"
  }

  /** One line per statement of the body. */
  function EmitLines(ts: seq<T.Node>): string
    decreases ts
  {
    if ts == [] then "" else EmitLines(ts[..|ts| - 1]) + Emit(ts[|ts| - 1]) + "\n"
  }

  function EmitProgram(p: T.Program): string {
    EmitLines(p.body)
  }

  // ---------------------------------------------------------------------------
  // The evidently intended printer

  function Generate(t: T.Node): string
    decreases t
  {
    match t
    case NumberLiteral(v) => v
    case StringLiteral(v) => "\"" + v + "\""
    case Identifier(name) => name
    case ExpressionStatement(e) => Generate(e) + ";"
    case CallExpression(callee, args) => Generate(callee) + "(" + Join(args) + ")"
  }

  /** The arguments separated by commas. */
  function Join(ts: seq<T.Node>): string
    decreases ts
  {
    if ts == [] then ""
    else if |ts| == 1 then Generate(ts[0])
    else Join(ts[..|ts| - 1]) + "," + Generate(ts[|ts| - 1])
  }

  function GenerateLines(ts: seq<T.Node>): string
    decreases ts
  {
    if ts == [] then "" else GenerateLines(ts[..|ts| - 1]) + Generate(ts[|ts| - 1]) + "\n"
  }

  function GenerateProgram(p: T.Program): string {
    GenerateLines(p.body)
  }

  // ---------------------------------------------------------------------------
  // The two printers

  /** Every call in the tree has at least one argument. */
  predicate NoEmptyCall(t: T.Node)
    decreases t
  {
    match t
    case ExpressionStatement(e) => NoEmptyCall(e)
    case CallExpression(callee, args) =>
      args != [] && NoEmptyCall(callee) && forall k :: 0 <= k < |args| ==> NoEmptyCall(args[k])
    case _ => true
  }

  /** The generator as written prints what was intended whenever no call is empty. */
  lemma {:induction false} EmitAgrees(t: T.Node)
    requires NoEmptyCall(t)
    ensures Emit(t) == Generate(t)
    decreases t
  {
    match t
    case ExpressionStatement(e) =>
      EmitAgrees(e);
    case CallExpression(callee, args) =>
      EmitAgrees(callee);
      TerminatedJoin(args);
      var s := "(" + Terminated(args);
      assert s == "(" + Join(args) + ",";
      assert s[..|s| - 1] == "(" + Join(args);
    case _ =>
  }

  lemma {:induction false} TerminatedJoin(ts: seq<T.Node>)
    requires forall k :: 0 <= k < |ts| ==> NoEmptyCall(ts[k])
    requires ts != []
    ensures Terminated(ts) == Join(ts) + ","
    decreases ts
  {
    var init := ts[..|ts| - 1];
    EmitAgrees(ts[|ts| - 1]);
    if |ts| == 1 {
      assert Terminated(init) == "";
    } else {
      assert forall k :: 0 <= k < |init| ==> init[k] == ts[k];
      TerminatedJoin(init);
    }
  }

  lemma EmitLinesAgree(ts: seq<T.Node>)
    requires forall k :: 0 <= k < |ts| ==> NoEmptyCall(ts[k])
    ensures EmitLines(ts) == GenerateLines(ts)
    decreases ts
  {
    if ts != [] {
      var init := ts[..|ts| - 1];
      assert forall k :: 0 <= k < |init| ==> init[k] == ts[k];
      EmitLinesAgree(init);
      EmitAgrees(ts[|ts| - 1]);
    }
  }

  /** A call without arguments: printed as "f)" as written, "f()" as intended. */
  lemma EmptyCallMisprinted(name: string)
    ensures Emit(T.CallExpression(T.Identifier(name), [])) == name + ")"
    ensures Generate(T.CallExpression(T.Identifier(name), [])) == name + "()"
  {
    assert Terminated([]) == "";
    assert Close("(") == ")";
  }

  // ---------------------------------------------------------------------------
  // Parentheses and lines

  /** The intended printer opens and closes one parenthesis per call and adds no line break. */
  lemma {:induction false} GenerateCounts(t: T.Node)
    requires PlainLeaves(t)
    ensures var s := Generate(t);
      Count('(', s) == Calls(t) && Count(')', s) == Calls(t) && Count('\n', s) == 0
    decreases t
  {
    match t
    case NumberLiteral(v) =>
      CountPlain(v);
    case StringLiteral(v) =>
      QuotedCounts(v);
    case Identifier(name) =>
      CountPlain(name);
    case ExpressionStatement(e) =>
      GenerateCounts(e);
      StatementCounts(Generate(e));
    case CallExpression(callee, args) =>
      GenerateCounts(callee);
      JoinCounts(args);
      GenerateCallCase(callee, args);
  }

  lemma GenerateCallCase(callee: T.Node, args: seq<T.Node>)
    requires var s := Generate(callee);
      Count('(', s) == Calls(callee) && Count(')', s) == Calls(callee) && Count('\n', s) == 0
    requires var s := Join(args);
      Count('(', s) == CallsSeq(args) && Count(')', s) == CallsSeq(args) && Count('\n', s) == 0
    ensures var t := T.CallExpression(callee, args); var s := Generate(t);
      Count('(', s) == Calls(t) && Count(')', s) == Calls(t) && Count('\n', s) == 0
  {
    CallCounts(Generate(callee), Join(args));
  }

  /** A string literal adds two quotes and nothing the counts see. */
  lemma QuotedCounts(v: string)
    requires Plain(v)
    ensures var s := "\"" + v + "\"";
      Count('(', s) == 0 && Count(')', s) == 0 && Count('\n', s) == 0
  {
    CountPlain(v);
    CountsAppend3("\"", v, "\"");
  }

  /** A statement adds a semicolon and nothing the counts see. */
  lemma StatementCounts(e: string)
    ensures Count('(', e + ";") == Count('(', e) && Count(')', e + ";") == Count(')', e)
    ensures Count('\n', e + ";") == Count('\n', e)
  {
    CountsAppend(e, ";");
  }

  lemma CallCounts(callee: string, args: string)
    ensures var s := callee + "(" + args + ")";
      && Count('(', s) == Count('(', callee) + Count('(', args) + 1
      && Count(')', s) == Count(')', callee) + Count(')', args) + 1
      && Count('\n', s) == Count('\n', callee) + Count('\n', args)
  {
    CountsAppend3(callee, "(", args);
    CountsAppend(callee + "(" + args, ")");
  }

  lemma {:induction false} JoinCounts(ts: seq<T.Node>)
    requires forall k :: 0 <= k < |ts| ==> PlainLeaves(ts[k])
    ensures var s := Join(ts);
      Count('(', s) == CallsSeq(ts) && Count(')', s) == CallsSeq(ts) && Count('\n', s) == 0
    decreases ts
  {
    if ts != [] {
      var init := ts[..|ts| - 1];
      GenerateCounts(ts[|ts| - 1]);
      if |ts| == 1 {
        assert CallsSeq(init) == 0;
      } else {
        assert forall k :: 0 <= k < |init| ==> init[k] == ts[k];
        JoinCounts(init);
        JoinStep(ts);
      }
    }
  }

  lemma JoinStep(ts: seq<T.Node>)
    requires |ts| > 1
    requires var s := Join(ts[..|ts| - 1]); var n := CallsSeq(ts[..|ts| - 1]);
      Count('(', s) == n && Count(')', s) == n && Count('\n', s) == 0
    requires var s := Generate(ts[|ts| - 1]); var n := Calls(ts[|ts| - 1]);
      Count('(', s) == n && Count(')', s) == n && Count('\n', s) == 0
    ensures var s := Join(ts);
      Count('(', s) == CallsSeq(ts) && Count(')', s) == CallsSeq(ts) && Count('\n', s) == 0
  {
    var init := ts[..|ts| - 1];
    var last := ts[|ts| - 1];
    assert Join(ts) == Join(init) + "," + Generate(last);
    assert CallsSeq(ts) == CallsSeq(init) + Calls(last);
    CountsAppend3(Join(init), ",", Generate(last));
    CountChar('(', ',');
    CountChar(')', ',');
    CountChar('\n', ',');
  }

  /** The printer as written closes one parenthesis per call but opens one only per call with
      arguments: each empty call leaves one parenthesis unmatched. */
  lemma {:induction false} EmitCounts(t: T.Node)
    requires PlainLeaves(t)
    ensures var s := Emit(t);
      Count('(', s) + EmptyCalls(t) == Calls(t) && Count(')', s) == Calls(t)
    decreases t
  {
    match t
    case NumberLiteral(v) =>
      CountPlain(v);
    case StringLiteral(v) =>
      QuotedCounts(v);
    case Identifier(name) =>
      CountPlain(name);
    case ExpressionStatement(e) =>
      EmitCounts(e);
      StatementCounts(Emit(e));
    case CallExpression(callee, args) =>
      EmitCounts(callee);
      TerminatedCounts(args);
      EmitCallCase(callee, args);
  }

  lemma EmitCallCase(callee: T.Node, args: seq<T.Node>)
    requires var s := Emit(callee);
      Count('(', s) + EmptyCalls(callee) == Calls(callee) && Count(')', s) == Calls(callee)
    requires var s := Terminated(args);
      Count('(', s) + EmptyCallsSeq(args) == CallsSeq(args) && Count(')', s) == CallsSeq(args)
    requires args != [] ==> var s := Terminated(args); s[|s| - 1] == ','
    ensures var t := T.CallExpression(callee, args); var s := Emit(t);
      Count('(', s) + EmptyCalls(t) == Calls(t) && Count(')', s) == Calls(t)
  {
    var t := T.CallExpression(callee, args);
    assert Emit(t) == Emit(callee) + Close("(" + Terminated(args));
    assert Calls(t) == 1 + Calls(callee) + CallsSeq(args);
    assert EmptyCalls(t) == (if args == [] then 1 else 0) + EmptyCalls(callee) + EmptyCallsSeq(args);
    EmitCallCounts(Emit(callee), Terminated(args));
  }

  lemma EmitCallCounts(callee: string, terminated: string)
    requires terminated != [] ==> terminated[|terminated| - 1] == ','
    ensures var s := callee + Close("(" + terminated);
      && Count('(', s) + (if terminated == [] then 1 else 0) == Count('(', callee) + Count('(', terminated) + 1
      && Count(')', s) == Count(')', callee) + Count(')', terminated) + 1
  {
    var s := "(" + terminated;
    CountsAppend("(", terminated);
    CloseCounts(s);
    if terminated == [] {
      assert s == "(";
    } else {
      assert s[|s| - 1] == ',';
    }
    CountsAppend(callee, Close(s));
  }

  lemma {:induction false} TerminatedCounts(ts: seq<T.Node>)
    requires forall k :: 0 <= k < |ts| ==> PlainLeaves(ts[k])
    ensures var s := Terminated(ts);
      Count('(', s) + EmptyCallsSeq(ts) == CallsSeq(ts) && Count(')', s) == CallsSeq(ts)
    ensures ts != [] ==> var s := Terminated(ts); s[|s| - 1] == ','
    decreases ts
  {
    if ts != [] {
      var init := ts[..|ts| - 1];
      assert forall k :: 0 <= k < |init| ==> init[k] == ts[k];
      TerminatedCounts(init);
      EmitCounts(ts[|ts| - 1]);
      TerminatedStep(ts);
    }
  }

  lemma TerminatedStep(ts: seq<T.Node>)
    requires ts != []
    requires var s := Terminated(ts[..|ts| - 1]); var init := ts[..|ts| - 1];
      Count('(', s) + EmptyCallsSeq(init) == CallsSeq(init) && Count(')', s) == CallsSeq(init)
    requires var s := Emit(ts[|ts| - 1]); var last := ts[|ts| - 1];
      Count('(', s) + EmptyCalls(last) == Calls(last) && Count(')', s) == Calls(last)
    ensures var s := Terminated(ts);
      Count('(', s) + EmptyCallsSeq(ts) == CallsSeq(ts) && Count(')', s) == CallsSeq(ts)
    ensures var s := Terminated(ts); s[|s| - 1] == ','
  {
    CountsAppend3(Terminated(ts[..|ts| - 1]), Emit(ts[|ts| - 1]), ",");
  }

  lemma CloseCounts(s: string)
    requires |s| > 0
    ensures Count('(', Close(s)) == Count('(', s) - (if s[|s| - 1] == '(' then 1 else 0)
    ensures Count(')', Close(s)) == Count(')', s) - (if s[|s| - 1] == ')' then 1 else 0) + 1
  {
    CloseCount('(', s);
    CloseCount(')', s);
  }

  /** Replacing the last character by `)` changes the count of `c` by the two characters. */
  lemma CloseCount(c: char, s: string)
    requires |s| > 0
    ensures Count(c, Close(s)) == Count(c, s) - (if s[|s| - 1] == c then 1 else 0) + (if c == ')' then 1 else 0)
  {
    var init := s[..|s| - 1];
    var last := s[|s| - 1];
    assert s == init + [last];
    assert Close(s) == init + [')'];
    CountAppend(c, init, [last]);
    CountAppend(c, init, [')']);
    CountChar(c, last);
    CountChar(c, ')');
  }

  lemma CountsAppend(a: string, b: string)
    ensures Count('(', a + b) == Count('(', a) + Count('(', b)
    ensures Count(')', a + b) == Count(')', a) + Count(')', b)
    ensures Count('\n', a + b) == Count('\n', a) + Count('\n', b)
  {
    CountAppend('(', a, b);
    CountAppend(')', a, b);
    CountAppend('\n', a, b);
  }

  lemma CountsAppend3(a: string, b: string, c: string)
    ensures Count('(', a + b + c) == Count('(', a) + Count('(', b) + Count('(', c)
    ensures Count(')', a + b + c) == Count(')', a) + Count(')', b) + Count(')', c)
    ensures Count('\n', a + b + c) == Count('\n', a) + Count('\n', b) + Count('\n', c)
  {
    CountsAppend(a, b);
    CountsAppend(a + b, c);
  }

  /** The intended program text has exactly one line per statement. */
  lemma {:induction false} GenerateLinesCount(ts: seq<T.Node>)
    requires forall k :: 0 <= k < |ts| ==> PlainLeaves(ts[k])
    ensures Count('\n', GenerateLines(ts)) == |ts|
    decreases ts
  {
    if ts != [] {
      var init := ts[..|ts| - 1];
      assert forall k :: 0 <= k < |init| ==> init[k] == ts[k];
      GenerateLinesCount(init);
      GenerateCounts(ts[|ts| - 1]);
      CountsAppend3(GenerateLines(init), Generate(ts[|ts| - 1]), "\n");
    }
  }

  // ---------------------------------------------------------------------------
  // The code

  /** `codeGenerator` on a node. */
  method CodeGenerator(astNew: T.Node) returns (retStr: string)
    ensures retStr == Emit(astNew)
    decreases astNew
  {
    match astNew
    case ExpressionStatement(expression) =>
      var s := CodeGenerator(expression);
      return s + ";";
    case CallExpression(callee, arguments) =>
      var tmpStr := CodeGenerator(callee);
      var tmpStr2 := "(";
      for i := 0 to |arguments|
        invariant tmpStr2 == "(" + Terminated(arguments[..i])
      {
        var s := CodeGenerator(arguments[i]);
        assert arguments[..i + 1][..i] == arguments[..i];
        tmpStr2 := tmpStr2 + s + ",";
      }
      assert arguments[..|arguments|] == arguments;
      tmpStr2 := tmpStr2[..|tmpStr2| - 1];
      tmpStr2 := tmpStr2 + ")";
      return tmpStr + tmpStr2;
    case Identifier(name) =>
      return name;
    case NumberLiteral(value) =>
      return value;
    case StringLiteral(value) =>
      return "\"" + value + "\"";
  }

  /** `codeGenerator` on the root: each statement of the body on its own line. */
  method CodeGeneratorProgram(astNew: T.Program) returns (retStr: string)
    ensures retStr == EmitProgram(astNew)
  {
    var body := astNew.body;
    var tmpStr := "";
    for i := 0 to |body|
      invariant tmpStr == EmitLines(body[..i])
    {
      var s := CodeGenerator(body[i]);
      assert body[..i + 1][..i] == body[..i];
      tmpStr := tmpStr + s + "\n";
    }
    assert body[..|body|] == body;
    return tmpStr;
  }
}
