/** The parser: tokens to a tree. `walk` reads one expression by recursive descent, with a
    loop over the parameters of a call; `parser` loops over the top-level expressions.

    `ParseNode`, `ParseArgs` and `ParseBody` are the meaning of those loops, written as
    recursions on a token index; `Walk` and `Parser` are the index-driven code itself, proved
    equal to them. */
module Parsing {
  import opened Results
  import opened Tokens
  import opened SourceAst

  predicate IsOpen(t: Token) {
    t.kind == Paren && t.value == "("
  }

  predicate IsClose(t: Token) {
    t.kind == Paren && t.value == ")"
  }

  /** A parse that stopped at token index `next`. */
  datatype Parsed<T> = Parsed(next: nat, tree: T)

  /** One expression starting at `pos`. A number or string token is a literal; `(` takes the
      token after it, whatever its kind, as the callee name and then reads parameters up to the
      matching `)`. Any other token is an error, and so is reading past the last token. */
  function ParseNode(ts: seq<Token>, pos: nat): (r: Result<Parsed<Node>>)
    requires pos < |ts|
    ensures r.Ok? ==> pos < r.value.next <= |ts|
    decreases |ts| - pos, 0
  {
    var token := ts[pos];
    if token.kind == Number then Ok(Parsed(pos + 1, NumberLiteral(token.value)))
    else if token.kind == Str then Ok(Parsed(pos + 1, StringLiteral(token.value)))
    else if IsOpen(token) then
      if pos + 2 >= |ts| then Fail(TokensExhausted)
      else
        var args :- ParseArgs(ts, pos + 2);
        Ok(Parsed(args.next + 1, CallExpression(ts[pos + 1].value, args.tree)))
    else Fail(UnknownToken(token.value))
  }

  /** The parameters of a call, starting at `pos` and stopping at (not past) the first `)` that
      is not inside a parameter. */
  function ParseArgs(ts: seq<Token>, pos: nat): (r: Result<Parsed<seq<Node>>>)
    requires pos < |ts|
    ensures r.Ok? ==> pos <= r.value.next < |ts|
    decreases |ts| - pos, 1
  {
    if IsClose(ts[pos]) then Ok(Parsed(pos, []))
    else
      var param :- ParseNode(ts, pos);
      if param.next == |ts| then Fail(TokensExhausted)
      else
        var rest :- ParseArgs(ts, param.next);
        Ok(Parsed(rest.next, [param.tree] + rest.tree))
  }

  /** The top-level expressions from `pos` to the end of the tokens. */
  function ParseBody(ts: seq<Token>, pos: nat): (r: Result<seq<Node>>)
    requires pos <= |ts|
    decreases |ts| - pos
  {
    if pos == |ts| then Ok([])
    else
      var node :- ParseNode(ts, pos);
      Prefix([node.tree], ParseBody(ts, node.next))
  }

  function Parse(ts: seq<Token>): (r: Result<Program>) {
    var body :- ParseBody(ts, 0);
    Ok(Program(body))
  }

  /** What a successful parse of one expression consumed: one literal token, or a call from
      its `(` through its `)`; a token that starts no expression is reported. */
  lemma {:induction false} ParseNodeShape(ts: seq<Token>, pos: nat)
    requires pos < |ts|
    ensures var r := ParseNode(ts, pos);
      && (r.Ok? && !r.value.tree.CallExpression? ==> r.value.next == pos + 1)
      && (r.Ok? && r.value.tree.CallExpression? ==>
            IsOpen(ts[pos]) && pos + 3 <= r.value.next && IsClose(ts[r.value.next - 1]))
      && (ts[pos].kind != Number && ts[pos].kind != Str && !IsOpen(ts[pos]) ==>
            r == Fail(UnknownToken(ts[pos].value)))
  {
    if IsOpen(ts[pos]) && pos + 2 < |ts| {
      ParseArgsShape(ts, pos + 2);
    }
  }

  /** A successful parameter list stops at a `)`; an empty one stops where it started. */
  lemma {:induction false} ParseArgsShape(ts: seq<Token>, pos: nat)
    requires pos < |ts|
    ensures var r := ParseArgs(ts, pos);
      && (r.Ok? ==> IsClose(ts[r.value.next]))
      && (r.Ok? && r.value.tree == [] ==> r.value.next == pos)
    decreases |ts| - pos
  {
    if !IsClose(ts[pos]) {
      var param := ParseNode(ts, pos);
      if param.Ok? && param.value.next < |ts| {
        ParseArgsShape(ts, param.value.next);
      }
    }
  }

  /** Each top-level expression takes at least one token. */
  lemma {:induction false} ParseBodyLength(ts: seq<Token>, pos: nat)
    requires pos <= |ts|
    ensures ParseBody(ts, pos).Ok? ==> |ParseBody(ts, pos).value| <= |ts| - pos
    decreases |ts| - pos
  {
    if pos < |ts| && ParseNode(ts, pos).Ok? {
      ParseBodyLength(ts, ParseNode(ts, pos).value.next);
    }
  }

  // ---------------------------------------------------------------------------
  // The code

  /** `params` put in front of the parameters of a successful parse. */
  function Extend(params: seq<Node>, r: Result<Parsed<seq<Node>>>): Result<Parsed<seq<Node>>> {
    if r.Ok? then Ok(Parsed(r.value.next, params + r.value.tree)) else r
  }

  /** `walk`: one expression, starting at token index `start`. */
  method Walk(start: nat, tokens: seq<Token>) returns (r: Result<Parsed<Node>>)
    requires start < |tokens|
    ensures r == ParseNode(tokens, start)
    decreases |tokens| - start
  {
    var current := start;
    var token := tokens[current];
    if token.kind == Number {
      current := current + 1;
      return Ok(Parsed(current, NumberLiteral(token.value)));
    }
    if token.kind == Str {
      current := current + 1;
      return Ok(Parsed(current, StringLiteral(token.value)));
    }
    if IsOpen(token) {
      current := current + 1;
      if current == |tokens| {
        return Fail(TokensExhausted);
      }
      token := tokens[current];
      var name := token.value;
      var params: seq<Node> := [];
      current := current + 1;
      if current == |tokens| {
        return Fail(TokensExhausted);
      }
      token := tokens[current];
      ArgsStart(tokens, current);
      while !IsClose(token)
        invariant start + 2 <= current < |tokens| && token == tokens[current]
        invariant ParseArgs(tokens, start + 2) == Extend(params, ParseArgs(tokens, current))
        decreases |tokens| - current
      {
        var param := Walk(current, tokens);
        if param.Fail? || param.value.next == |tokens| {
          ArgsStops(tokens, start + 2, current, params);
          return Fail(if param.Fail? then param.error else TokensExhausted);
        }
        ArgsAdvance(tokens, start + 2, current, params);
        current := param.value.next;
        params := params + [param.value.tree];
        token := tokens[current];
      }
      ArgsEnd(tokens, start, current, params);
      current := current + 1;
      return Ok(Parsed(current, CallExpression(name, params)));
    }
    return Fail(UnknownToken(token.value));
  }

  /** `parser`: `walk` repeated until the tokens run out. */
  method Parser(tokens: seq<Token>) returns (r: Result<Program>)
    ensures r == Parse(tokens)
  {
    var current := 0;
    var body: seq<Node> := [];
    BodyStart(tokens);
    while current < |tokens|
      invariant current <= |tokens|
      invariant ParseBody(tokens, 0) == Prefix(body, ParseBody(tokens, current))
      decreases |tokens| - current
    {
      var param := Walk(current, tokens);
      if param.Fail? {
        BodyStops(tokens, current, body);
        return Fail(param.error);
      }
      BodyAdvance(tokens, current, body);
      current := param.value.next;
      body := body + [param.value.tree];
    }
    BodyEnd(tokens, body);
    return Ok(Program(body));
  }

  // Each pass of the two loops, as a fact about the recursive definitions.

  lemma ArgsStart(ts: seq<Token>, pos: nat)
    requires pos < |ts|
    ensures ParseArgs(ts, pos) == Extend([], ParseArgs(ts, pos))
  {
    var r := ParseArgs(ts, pos);
    if r.Ok? {
      assert [] + r.value.tree == r.value.tree;
    }
  }

  lemma ArgsAdvance(ts: seq<Token>, start: nat, pos: nat, params: seq<Node>)
    requires start < |ts| && pos < |ts| && !IsClose(ts[pos])
    requires ParseNode(ts, pos).Ok? && ParseNode(ts, pos).value.next < |ts|
    requires ParseArgs(ts, start) == Extend(params, ParseArgs(ts, pos))
    ensures var p := ParseNode(ts, pos).value;
      ParseArgs(ts, start) == Extend(params + [p.tree], ParseArgs(ts, p.next))
  {
    var p := ParseNode(ts, pos).value;
    var rest := ParseArgs(ts, p.next);
    if rest.Ok? {
      assert params + ([p.tree] + rest.value.tree) == (params + [p.tree]) + rest.value.tree;
    }
  }

  lemma ArgsStops(ts: seq<Token>, start: nat, pos: nat, params: seq<Node>)
    requires start < |ts| && pos < |ts| && !IsClose(ts[pos])
    requires ParseNode(ts, pos).Fail? || ParseNode(ts, pos).value.next == |ts|
    requires ParseArgs(ts, start) == Extend(params, ParseArgs(ts, pos))
    ensures ParseArgs(ts, start)
      == Fail(if ParseNode(ts, pos).Fail? then ParseNode(ts, pos).error else TokensExhausted)
  {
  }

  lemma ArgsEnd(ts: seq<Token>, start: nat, pos: nat, params: seq<Node>)
    requires start + 2 <= pos < |ts| && IsClose(ts[pos]) && IsOpen(ts[start])
    requires ParseArgs(ts, start + 2) == Extend(params, ParseArgs(ts, pos))
    ensures ParseNode(ts, start) == Ok(Parsed(pos + 1, CallExpression(ts[start + 1].value, params)))
  {
    assert params + [] == params;
  }

  lemma BodyStart(ts: seq<Token>)
    ensures ParseBody(ts, 0) == Prefix([], ParseBody(ts, 0))
  {
    var r := ParseBody(ts, 0);
    if r.Ok? {
      assert [] + r.value == r.value;
    }
  }

  lemma BodyAdvance(ts: seq<Token>, pos: nat, body: seq<Node>)
    requires pos < |ts| && ParseNode(ts, pos).Ok?
    requires ParseBody(ts, 0) == Prefix(body, ParseBody(ts, pos))
    ensures var p := ParseNode(ts, pos).value;
      ParseBody(ts, 0) == Prefix(body + [p.tree], ParseBody(ts, p.next))
  {
    var p := ParseNode(ts, pos).value;
    PrefixPrefix(body, [p.tree], ParseBody(ts, p.next));
  }

  lemma BodyStops(ts: seq<Token>, pos: nat, body: seq<Node>)
    requires pos < |ts| && ParseNode(ts, pos).Fail?
    requires ParseBody(ts, 0) == Prefix(body, ParseBody(ts, pos))
    ensures ParseBody(ts, 0) == Fail(ParseNode(ts, pos).error)
  {
  }

  lemma BodyEnd(ts: seq<Token>, body: seq<Node>)
    requires ParseBody(ts, 0) == Prefix(body, ParseBody(ts, |ts|))
    ensures Parse(ts) == Ok(Program(body))
  {
    assert ParseBody(ts, |ts|) == Ok([]);
    assert body + [] == body;
    assert ParseBody(ts, 0) == Ok(body);
  }

  // ---------------------------------------------------------------------------
  // Printing a tree back as tokens, and parsing it again

  /** The tokens of an expression: a literal is one token; a call is `(`, its name, its
      parameters' tokens and `)`. */
  function TokensOf(n: Node): (ts: seq<Token>)
    ensures |ts| > 0 && !IsClose(ts[0])
    decreases n
  {
    match n
    case NumberLiteral(v) => [Token(Number, v)]
    case StringLiteral(v) => [Token(Str, v)]
    case CallExpression(name, params) =>
      [Token(Paren, "("), Token(Name, name)] + TokensOfSeq(params) + [Token(Paren, ")")]
  }

  function TokensOfSeq(ns: seq<Node>): seq<Token>
    decreases ns
  {
    if ns == [] then [] else TokensOf(ns[0]) + TokensOfSeq(ns[1..])
  }

  function TokensOfProgram(p: Program): seq<Token> {
    TokensOfSeq(p.body)
  }

  /** `xs` occurs in `ts` starting at index `pos`. */
  predicate At(ts: seq<Token>, pos: nat, xs: seq<Token>) {
    pos + |xs| <= |ts| && forall i :: 0 <= i < |xs| ==> ts[pos + i] == xs[i]
  }

  lemma AtSplit(ts: seq<Token>, pos: nat, xs: seq<Token>, ys: seq<Token>)
    requires At(ts, pos, xs + ys)
    ensures At(ts, pos, xs) && At(ts, pos + |xs|, ys)
  {
    assert forall i :: 0 <= i < |xs| ==> (xs + ys)[i] == xs[i];
    assert forall i :: 0 <= i < |ys| ==> (xs + ys)[|xs| + i] == ys[i];
  }

  /** An expression's tokens parse back to that expression, wherever they occur. */
  lemma {:induction false} ParseNodeTokens(n: Node, ts: seq<Token>, pos: nat)
    requires At(ts, pos, TokensOf(n))
    ensures pos < |ts| && ParseNode(ts, pos) == Ok(Parsed(pos + |TokensOf(n)|, n))
    decreases n
  {
    assert ts[pos + 0] == TokensOf(n)[0];
    match n
    case NumberLiteral(_) =>
    case StringLiteral(_) =>
    case CallExpression(name, params) =>
      var open := [Token(Paren, "("), Token(Name, name)];
      var inner := TokensOfSeq(params);
      var close := [Token(Paren, ")")];
      assert TokensOf(n) == open + (inner + close);
      AtSplit(ts, pos, open, inner + close);
      AtSplit(ts, pos + 2, inner, close);
      assert ts[pos + 1] == open[1];
      assert ts[pos + 2 + |inner| + 0] == close[0];
      ParseArgsTokens(params, ts, pos + 2);
  }

  /** A parameter list's tokens, followed by `)`, parse back to that list. */
  lemma {:induction false} ParseArgsTokens(ns: seq<Node>, ts: seq<Token>, pos: nat)
    requires At(ts, pos, TokensOfSeq(ns)) && pos + |TokensOfSeq(ns)| < |ts|
    requires IsClose(ts[pos + |TokensOfSeq(ns)|])
    ensures pos < |ts| && ParseArgs(ts, pos) == Ok(Parsed(pos + |TokensOfSeq(ns)|, ns))
    decreases ns
  {
    if ns != [] {
      var head := TokensOf(ns[0]);
      var tail := TokensOfSeq(ns[1..]);
      AtSplit(ts, pos, head, tail);
      assert ts[pos + 0] == head[0];
      ParseNodeTokens(ns[0], ts, pos);
      ParseArgsTokens(ns[1..], ts, pos + |head|);
      assert [ns[0]] + ns[1..] == ns;
    }
  }

  /** Top-level expressions' tokens parse back to those expressions, and then parsing goes on
      with whatever follows. */
  lemma {:induction false} ParseBodyTokens(ns: seq<Node>, ts: seq<Token>, pos: nat)
    requires At(ts, pos, TokensOfSeq(ns))
    ensures ParseBody(ts, pos) == Prefix(ns, ParseBody(ts, pos + |TokensOfSeq(ns)|))
    decreases ns
  {
    if ns == [] {
      var r := ParseBody(ts, pos);
      if r.Ok? {
        assert [] + r.value == r.value;
      }
    } else {
      var head := TokensOf(ns[0]);
      var tail := TokensOfSeq(ns[1..]);
      AtSplit(ts, pos, head, tail);
      ParseNodeTokens(ns[0], ts, pos);
      ParseBodyTokens(ns[1..], ts, pos + |head|);
      PrefixPrefix([ns[0]], ns[1..], ParseBody(ts, pos + |TokensOfSeq(ns)|));
      assert [ns[0]] + ns[1..] == ns;
    }
  }

  /** Parsing inverts printing: every tree is parsed back from its tokens. */
  lemma ParseTokensOf(p: Program)
    ensures Parse(TokensOfProgram(p)) == Ok(p)
  {
    var ts := TokensOfProgram(p);
    ParseBodyTokens(p.body, ts, 0);
    assert p.body + [] == p.body;
  }

  /** Parameters whose tokens run to the end of the input, with no `)` after them. */
  lemma {:induction false} ParseArgsUnclosed(ns: seq<Node>, ts: seq<Token>, pos: nat)
    requires ns != [] && At(ts, pos, TokensOfSeq(ns)) && pos + |TokensOfSeq(ns)| == |ts|
    ensures pos < |ts| && ParseArgs(ts, pos) == Fail(TokensExhausted)
    decreases ns
  {
    var head := TokensOf(ns[0]);
    var tail := TokensOfSeq(ns[1..]);
    AtSplit(ts, pos, head, tail);
    assert ts[pos + 0] == head[0];
    ParseNodeTokens(ns[0], ts, pos);
    if ns[1..] != [] {
      ParseArgsUnclosed(ns[1..], ts, pos + |head|);
    }
  }

  /** A call whose `)` never comes runs out of tokens. */
  lemma ParseRejectsUnclosed(name: string, params: seq<Node>)
    ensures Parse([Token(Paren, "("), Token(Name, name)] + TokensOfSeq(params)) == Fail(TokensExhausted)
  {
    var open := [Token(Paren, "("), Token(Name, name)];
    var ts := open + TokensOfSeq(params);
    assert ts[0] == Token(Paren, "(");
    if params != [] {
      AtSplit(ts, 0, open, TokensOfSeq(params));
      ParseArgsUnclosed(params, ts, 2);
    }
    assert ParseNode(ts, 0) == Fail(TokensExhausted);
  }

  /** `walk` does not check the kind of the token after `(`: a number there becomes the
      callee name. */
  lemma ParseUncheckedCallee()
    ensures Parse([Token(Paren, "("), Token(Number, "5"), Token(Number, "2"), Token(Paren, ")")])
      == Ok(Program([CallExpression("5", [NumberLiteral("2")])]))
  {
    var ts := [Token(Paren, "("), Token(Number, "5"), Token(Number, "2"), Token(Paren, ")")];
    assert ParseArgs(ts, 3) == Ok(Parsed(3, []));
    assert ParseNode(ts, 2) == Ok(Parsed(3, NumberLiteral("2")));
    assert [NumberLiteral("2")] + [] == [NumberLiteral("2")];
    assert ParseArgs(ts, 2) == Ok(Parsed(3, [NumberLiteral("2")]));
    assert ParseNode(ts, 0) == Ok(Parsed(4, CallExpression("5", [NumberLiteral("2")])));
    assert ParseBody(ts, 4) == Ok([]);
    assert [CallExpression("5", [NumberLiteral("2")])] + [] == [CallExpression("5", [NumberLiteral("2")])];
  }

  /** A `)` where an expression should start is rejected, after any number of complete
      expressions. */
  lemma ParseRejectsStrayClose(p: Program)
    ensures Parse(TokensOfProgram(p) + [Token(Paren, ")")]) == Fail(UnknownToken(")"))
  {
    var close := [Token(Paren, ")")];
    var ts := TokensOfProgram(p) + close;
    var k := |TokensOfProgram(p)|;
    AtSplit(ts, 0, TokensOfProgram(p), close);
    ParseBodyTokens(p.body, ts, 0);
    assert ts[k + 0] == Token(Paren, ")");
    assert ParseNode(ts, k) == Fail(UnknownToken(")"));
    assert ParseBody(ts, k) == Fail(UnknownToken(")"));
  }
}
