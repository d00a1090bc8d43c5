/** Reading the generated text back: a reader for the output grammar, `name(arg,...)` for a call,
    digits for a number, a quoted string, `;` after a top-level call and a line break after each
    statement. Printing with the intended generator and reading back gives the printed tree, so
    the text determines the tree. */
module Reading {
  import opened Results
  import opened Tokens
  import T = TargetAst
  import Generation

  // ---------------------------------------------------------------------------
  // The reader

  /** One argument at the start of `s`, and the text after it. */
  function ReadNode(s: string): (r: Option<(T.Node, string)>)
    ensures r.Some? ==> |r.value.1| < |s|
    decreases |s|, 0
  {
    if s == [] then None
    else if IsDigit(s[0]) then
      var n := SpanEnd(s, 0, IsDigit);
      Some((T.NumberLiteral(s[..n]), s[n..]))
    else if s[0] == '"' then
      var n := SpanEnd(s, 1, IsNotQuote);
      if n == |s| then None else Some((T.StringLiteral(s[1..n]), s[n + 1..]))
    else if IsLetter(s[0]) then
      var n := SpanEnd(s, 0, IsLetter);
      if n == |s| || s[n] != '(' then None
      else
        var args :- ReadArgs(s[n + 1..]);
        Some((T.CallExpression(T.Identifier(s[..n]), args.0), args.1))
    else None
  }

  /** The arguments of a call up to and including its `)`, and the text after it. */
  function ReadArgs(s: string): (r: Option<(seq<T.Node>, string)>)
    ensures r.Some? ==> |r.value.1| < |s|
    decreases |s|, 1
  {
    if s == [] then None
    else if s[0] == ')' then Some(([], s[1..]))
    else
      var first :- ReadNode(s);
      var rest := first.1;
      if rest == [] then None
      else if rest[0] == ')' then Some(([first.0], rest[1..]))
      else if rest[0] == ',' then
        var more :- ReadArgs(rest[1..]);
        Some(([first.0] + more.0, more.1))
      else None
  }

  /** One statement: a literal, or a call followed by `;`. */
  function ReadStatement(s: string): (r: Option<(T.Node, string)>)
    ensures r.Some? ==> |r.value.1| < |s|
  {
    var node :- ReadNode(s);
    if !node.0.CallExpression? then Some(node)
    else if node.1 != [] && node.1[0] == ';' then Some((T.ExpressionStatement(node.0), node.1[1..]))
    else None
  }

  /** The statements of a program text, each followed by a line break. */
  function ReadLines(s: string): Option<seq<T.Node>>
    decreases |s|
  {
    if s == [] then Some([])
    else
      var st :- ReadStatement(s);
      if st.1 != [] && st.1[0] == '\n' then
        var more :- ReadLines(st.1[1..]);
        Some([st.0] + more)
      else None
  }

  // ---------------------------------------------------------------------------
  // The trees the transformer builds from scanned input

  /** An argument whose leaves the tokenizer can produce: a digit run, a string without a
      quote, or a call of a letter-run identifier on such arguments. */
  predicate Readable(t: T.Node)
    decreases t
  {
    match t
    case NumberLiteral(v) => WellFormed(Token(Number, v))
    case StringLiteral(v) => WellFormed(Token(Str, v))
    case CallExpression(callee, args) =>
      callee.Identifier? && WellFormed(Token(Name, callee.name))
      && forall k :: 0 <= k < |args| ==> Readable(args[k])
    case _ => false
  }

  /** A statement of the program body: a readable literal, or a readable call under an
      expression statement. */
  predicate StatementReadable(t: T.Node) {
    if t.ExpressionStatement? then t.expression.CallExpression? && Readable(t.expression)
    else !t.CallExpression? && Readable(t)
  }

  // ---------------------------------------------------------------------------
  // The printed text read front to back

  /** The arguments' text split after the first argument. */
  lemma {:induction false} JoinFront(ts: seq<T.Node>)
    requires |ts| >= 2
    ensures Generation.Join(ts) == Generation.Generate(ts[0]) + "," + Generation.Join(ts[1..])
    decreases |ts|
  {
    var init := ts[..|ts| - 1];
    var last := ts[|ts| - 1];
    assert ts[1..][..|ts| - 2] == init[1..];
    if |ts| > 2 {
      JoinFront(init);
    }
  }

  /** The program text split after the first statement. */
  lemma {:induction false} LinesFront(ts: seq<T.Node>)
    requires |ts| >= 1
    ensures Generation.GenerateLines(ts)
      == Generation.Generate(ts[0]) + "\n" + Generation.GenerateLines(ts[1..])
    decreases |ts|
  {
    var init := ts[..|ts| - 1];
    if |ts| == 1 {
      assert init == [] && ts[1..] == [];
    } else {
      assert ts[1..][..|ts| - 2] == init[1..];
      LinesFront(init);
    }
  }

  /** A printed argument starts with a digit, a quote or a letter, never with `)`. */
  lemma GenerateHead(t: T.Node)
    requires Readable(t)
    ensures |Generation.Generate(t)| > 0 && Generation.Generate(t)[0] != ')'
  {
    if t.CallExpression? {
      assert Generation.Generate(t)[0] == t.callee.name[0];
    }
  }

  /** An argument's text reads back to the argument, whatever follows it that cannot continue
      a number. */
  lemma {:induction false} ReadGenerate(t: T.Node, rest: string)
    requires Readable(t) && (rest == [] || !IsDigit(rest[0]))
    ensures ReadNode(Generation.Generate(t) + rest) == Some((t, rest))
    decreases t, 1
  {
    match t
    case NumberLiteral(v) =>
      ReadNumber(v, rest);
    case StringLiteral(v) =>
      ReadString(v, rest);
    case CallExpression(callee, args) =>
      var inner := Generation.Join(args) + ")" + rest;
      ReadJoin(args, rest);
      CallTextSplit(callee.name, args, rest);
      ReadCall(callee.name, inner, args, rest);
  }

  lemma CallTextSplit(name: string, args: seq<T.Node>, rest: string)
    ensures Generation.Generate(T.CallExpression(T.Identifier(name), args)) + rest
      == name + "(" + (Generation.Join(args) + ")" + rest)
  {
  }

  lemma ReadNumber(v: string, rest: string)
    requires WellFormed(Token(Number, v)) && (rest == [] || !IsDigit(rest[0]))
    ensures ReadNode(v + rest) == Some((T.NumberLiteral(v), rest))
  {
    var s := v + rest;
    assert IsDigit(s[0]);
    SpanEndAt(s, 0, |v|, IsDigit);
    assert s[..|v|] == v && s[|v|..] == rest;
  }

  lemma ReadString(v: string, rest: string)
    requires WellFormed(Token(Str, v))
    ensures ReadNode("\"" + v + "\"" + rest) == Some((T.StringLiteral(v), rest))
  {
    var s := "\"" + v + "\"" + rest;
    SpanEndAt(s, 1, |v| + 1, IsNotQuote);
    assert s[1..|v| + 1] == v && s[|v| + 2..] == rest;
  }

  lemma ReadCall(name: string, inner: string, args: seq<T.Node>, rest: string)
    requires WellFormed(Token(Name, name)) && ReadArgs(inner) == Some((args, rest))
    ensures ReadNode(name + "(" + inner) == Some((T.CallExpression(T.Identifier(name), args), rest))
  {
    var s := name + "(" + inner;
    assert s[0] == name[0] && IsLetter(s[0]) && !IsDigit(s[0]) && s[0] != '"';
    SpanEndAt(s, 0, |name|, IsLetter);
    assert s[..|name|] == name && s[|name|] == '(' && s[|name| + 1..] == inner;
  }

  /** A call's argument text and its `)` read back to the arguments. */
  lemma {:induction false} ReadJoin(ts: seq<T.Node>, rest: string)
    requires forall k :: 0 <= k < |ts| ==> Readable(ts[k])
    ensures ReadArgs(Generation.Join(ts) + ")" + rest) == Some((ts, rest))
    decreases ts, 0
  {
    if ts == [] {
      ReadJoinEmpty(rest);
    } else if |ts| == 1 {
      ReadGenerate(ts[0], [')'] + rest);
      ReadJoinOne(ts, rest);
    } else {
      var tail := Generation.Join(ts[1..]) + ")" + rest;
      ReadGenerate(ts[0], [','] + tail);
      ReadJoin(ts[1..], rest);
      ReadJoinMore(ts, rest);
    }
  }

  lemma ReadJoinEmpty(rest: string)
    ensures ReadArgs(Generation.Join([]) + ")" + rest) == Some(([], rest))
  {
    var s := Generation.Join([]) + ")" + rest;
    assert s == [')'] + rest;
  }

  lemma ReadJoinOne(ts: seq<T.Node>, rest: string)
    requires |ts| == 1 && Readable(ts[0])
    requires ReadNode(Generation.Generate(ts[0]) + ([')'] + rest)) == Some((ts[0], [')'] + rest))
    ensures ReadArgs(Generation.Join(ts) + ")" + rest) == Some((ts, rest))
  {
    var a := ts[0];
    var s := Generation.Join(ts) + ")" + rest;
    GenerateHead(a);
    assert s == Generation.Generate(a) + ([')'] + rest);
    ReadArgsLast(s, a, rest);
    assert [a] == ts;
  }

  lemma ReadJoinMore(ts: seq<T.Node>, rest: string)
    requires |ts| >= 2 && Readable(ts[0])
    requires var tail := Generation.Join(ts[1..]) + ")" + rest;
      ReadNode(Generation.Generate(ts[0]) + ([','] + tail)) == Some((ts[0], [','] + tail))
      && ReadArgs(tail) == Some((ts[1..], rest))
    ensures ReadArgs(Generation.Join(ts) + ")" + rest) == Some((ts, rest))
  {
    var g := Generation.Generate(ts[0]);
    var tail := Generation.Join(ts[1..]) + ")" + rest;
    JoinFront(ts);
    ConsText(g, Generation.Join(ts[1..]), rest);
    GenerateHead(ts[0]);
    ReadArgsMore(g + ([','] + tail), ts[0], tail, ts[1..], rest);
    assert [ts[0]] + ts[1..] == ts;
  }

  lemma ConsText(g: string, j: string, rest: string)
    ensures g + "," + j + ")" + rest == g + ([','] + (j + ")" + rest))
  {
  }

  lemma ReadArgsLast(s: string, a: T.Node, rest: string)
    requires |s| > 0 && s[0] != ')' && ReadNode(s) == Some((a, [')'] + rest))
    ensures ReadArgs(s) == Some(([a], rest))
  {
    assert ([')'] + rest)[1..] == rest;
  }

  lemma ReadArgsMore(s: string, a: T.Node, tail: string, more: seq<T.Node>, rest: string)
    requires |s| > 0 && s[0] != ')' && ReadNode(s) == Some((a, [','] + tail))
    requires ReadArgs(tail) == Some((more, rest))
    ensures ReadArgs(s) == Some(([a] + more, rest))
  {
    assert ([','] + tail)[1..] == tail;
  }

  /** A statement's text reads back to the statement when a line break follows it. */
  lemma ReadStatementGenerate(t: T.Node, rest: string)
    requires StatementReadable(t) && |rest| > 0 && rest[0] == '\n'
    ensures ReadStatement(Generation.Generate(t) + rest) == Some((t, rest))
  {
    if t.ExpressionStatement? {
      var e := t.expression;
      assert Generation.Generate(t) + rest == Generation.Generate(e) + (";" + rest);
      ReadGenerate(e, ";" + rest);
    } else {
      ReadGenerate(t, rest);
    }
  }

  /** Reading inverts the intended printer: a program text reads back to the statements it
      was printed from. */
  lemma {:induction false} ReadLinesGenerate(ts: seq<T.Node>)
    requires forall k :: 0 <= k < |ts| ==> StatementReadable(ts[k])
    ensures ReadLines(Generation.GenerateLines(ts)) == Some(ts)
    decreases ts
  {
    if ts != [] {
      var tail := Generation.GenerateLines(ts[1..]);
      LinesFront(ts);
      ReadStatementGenerate(ts[0], "\n" + tail);
      ReadLinesGenerate(ts[1..]);
      ReadLinesCons(Generation.Generate(ts[0]), tail, ts[0], ts[1..]);
      assert [ts[0]] + ts[1..] == ts;
    }
  }

  lemma ReadLinesCons(g: string, tail: string, a: T.Node, more: seq<T.Node>)
    requires ReadStatement(g + ("\n" + tail)) == Some((a, "\n" + tail))
    requires ReadLines(tail) == Some(more)
    ensures ReadLines(g + "\n" + tail) == Some([a] + more)
  {
    assert g + "\n" + tail == g + ("\n" + tail);
    assert ("\n" + tail)[1..] == tail;
  }

  /** Two program bodies of readable statements with the same text are the same. */
  lemma GenerateLinesInjective(ts: seq<T.Node>, us: seq<T.Node>)
    requires forall k :: 0 <= k < |ts| ==> StatementReadable(ts[k])
    requires forall k :: 0 <= k < |us| ==> StatementReadable(us[k])
    requires Generation.GenerateLines(ts) == Generation.GenerateLines(us)
    ensures ts == us
  {
    ReadLinesGenerate(ts);
    ReadLinesGenerate(us);
  }
}
