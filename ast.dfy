/** The tree the parser builds: the `Node` struct with `nodeType` "CallExpression",
    "NumberLiteral" or "StringLiteral", under a root of `nodeType` "Program". */
module SourceAst {

  datatype Node =
    | NumberLiteral(value: string)
    | StringLiteral(value: string)
    | CallExpression(name: string, params: seq<Node>)

  /** The root; the parser makes one only at the top. */
  datatype Program = Program(body: seq<Node>)

  /** The `nodeType` string of a node, the key under which its visitor is installed. */
  function TypeName(n: Node): (s: string)
    ensures s == "NumberLiteral" <==> n.NumberLiteral?
    ensures s == "StringLiteral" <==> n.StringLiteral?
    ensures s == "CallExpression" <==> n.CallExpression?
  {
    match n
    case NumberLiteral(_) => "NumberLiteral"
    case StringLiteral(_) => "StringLiteral"
    case CallExpression(_, _) => "CallExpression"
  }

  /** The `value` field as the visitors read it: empty for a call. */
  function Value(n: Node): string {
    if n.CallExpression? then "" else n.value
  }

  /** The `name` field as the visitors read it: empty for a literal. */
  function Name(n: Node): string {
    if n.CallExpression? then n.name else ""
  }
}

/** The tree the transformer builds: the `NodeNew` struct with its `callee`, `expression` and
    `arguments` pointers followed, under a root of `nodeType` "Program". */
module TargetAst {

  datatype Node =
    | NumberLiteral(value: string)
    | StringLiteral(value: string)
    | Identifier(name: string)
    | CallExpression(callee: Node, arguments: seq<Node>)
    | ExpressionStatement(expression: Node)

  datatype Program = Program(body: seq<Node>)
}
