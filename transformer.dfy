/** The transformer: the parser's tree to the generator's tree.

    `transformer` installs three `enter` visitors in a map keyed by node type and walks the
    tree (`traversal`, `traversalNode`, `traversalArray`). Each visitor appends a new node to
    the slice its parent's `_context` points at: the root's `_context` is the global
    `astNewBody`, and a call's `_context` is the `arguments` slice of the call node its visitor
    made. Those slices are modelled as an arena `Slices`: slice 0 is `astNewBody` and a call
    node holds the index of its `arguments` slice. `ResolveItems` follows the indices, as the
    generator follows the pointers.

    `Lower` is the meaning of the transformation as a plain recursion; the traversal is proved
    to build an arena that resolves to it. */
module Transform {
  import opened Results
  import S = SourceAst
  import T = TargetAst

  // ---------------------------------------------------------------------------
  // The meaning

  /** A call becomes a call of an identifier, wrapped in an expression statement unless its
      parent is a call; literals are copied. */
  function LowerNode(n: S.Node, inCall: bool): T.Node
    decreases n
  {
    match n
    case NumberLiteral(v) => T.NumberLiteral(v)
    case StringLiteral(v) => T.StringLiteral(v)
    case CallExpression(name, params) =>
      var call := T.CallExpression(T.Identifier(name), LowerSeq(params, true));
      if inCall then call else T.ExpressionStatement(call)
  }

  function LowerSeq(ns: seq<S.Node>, inCall: bool): (r: seq<T.Node>)
    ensures |r| == |ns|
    decreases ns
  {
    if ns == [] then [] else [LowerNode(ns[0], inCall)] + LowerSeq(ns[1..], inCall)
  }

  function Lower(p: S.Program): T.Program {
    T.Program(LowerSeq(p.body, false))
  }

  /** A node as it may appear among a call's arguments: a literal, or a call of an identifier
      whose arguments are all of this shape. */
  predicate Argument(t: T.Node)
    decreases t
  {
    match t
    case NumberLiteral(_) => true
    case StringLiteral(_) => true
    case CallExpression(callee, args) =>
      callee.Identifier? && forall k :: 0 <= k < |args| ==> Argument(args[k])
    case _ => false
  }

  /** A node as it may appear in the program body: an argument-shaped literal, or an
      argument-shaped call under an expression statement. */
  predicate Statement(t: T.Node) {
    if t.ExpressionStatement? then t.expression.CallExpression? && Argument(t.expression)
    else !t.CallExpression? && Argument(t)
  }

  /** Lowering puts expression statements exactly at the top level: every top-level call is
      wrapped and nothing below it is. */
  lemma {:induction false} LowerShape(n: S.Node)
    ensures Argument(LowerNode(n, true))
    ensures Statement(LowerNode(n, false))
    ensures LowerNode(n, false).ExpressionStatement? <==> n.CallExpression?
    decreases n
  {
    if n.CallExpression? {
      LowerSeqShape(n.params);
    }
  }

  lemma {:induction false} LowerSeqShape(ns: seq<S.Node>)
    ensures forall k :: 0 <= k < |ns| ==> Argument(LowerSeq(ns, true)[k])
    decreases ns
  {
    if ns != [] {
      LowerShape(ns[0]);
      LowerSeqShape(ns[1..]);
      forall k | 0 <= k < |ns|
        ensures Argument(LowerSeq(ns, true)[k])
      {
        if k > 0 {
          assert LowerSeq(ns, true)[k] == LowerSeq(ns[1..], true)[k - 1];
        }
      }
    }
  }

  /** The way back from a lowered node: `inCall` says whether an expression statement is
      expected around a call. */
  function RaiseNode(t: T.Node, inCall: bool): Option<S.Node>
    decreases t
  {
    match t
    case NumberLiteral(v) => Some(S.NumberLiteral(v))
    case StringLiteral(v) => Some(S.StringLiteral(v))
    case ExpressionStatement(CallExpression(Identifier(name), args)) =>
      if inCall then None
      else
        var params :- RaiseSeq(args);
        Some(S.CallExpression(name, params))
    case CallExpression(Identifier(name), args) =>
      if !inCall then None
      else
        var params :- RaiseSeq(args);
        Some(S.CallExpression(name, params))
    case _ => None
  }

  function RaiseSeq(ts: seq<T.Node>): Option<seq<S.Node>>
    decreases ts
  {
    if ts == [] then Some([])
    else
      var first :- RaiseNode(ts[0], true);
      var rest :- RaiseSeq(ts[1..]);
      Some([first] + rest)
  }

  /** Lowering loses nothing: every node is recovered from its lowering. */
  lemma {:induction false} RaiseLowerNode(n: S.Node, inCall: bool)
    ensures RaiseNode(LowerNode(n, inCall), inCall) == Some(n)
    decreases n
  {
    if n.CallExpression? {
      RaiseLowerSeq(n.params);
    }
  }

  lemma {:induction false} RaiseLowerSeq(ns: seq<S.Node>)
    ensures RaiseSeq(LowerSeq(ns, true)) == Some(ns)
    decreases ns
  {
    if ns != [] {
      var ts := LowerSeq(ns, true);
      assert ts[0] == LowerNode(ns[0], true) && ts[1..] == LowerSeq(ns[1..], true);
      RaiseLowerNode(ns[0], true);
      RaiseLowerSeq(ns[1..]);
      assert [ns[0]] + ns[1..] == ns;
    }
  }

  /** Lowering a program loses nothing, so two programs with the same lowering are equal. */
  lemma {:induction false} RaiseLowerBody(ns: seq<S.Node>)
    ensures forall k :: 0 <= k < |ns| ==> RaiseNode(LowerSeq(ns, false)[k], false) == Some(ns[k])
    decreases ns
  {
    if ns != [] {
      RaiseLowerNode(ns[0], false);
      RaiseLowerBody(ns[1..]);
      forall k | 0 <= k < |ns|
        ensures RaiseNode(LowerSeq(ns, false)[k], false) == Some(ns[k])
      {
        if k > 0 {
          assert LowerSeq(ns, false)[k] == LowerSeq(ns[1..], false)[k - 1];
        }
      }
    }
  }

  lemma LowerInjective(p: S.Program, q: S.Program)
    requires Lower(p) == Lower(q)
    ensures p == q
  {
    RaiseLowerBody(p.body);
    RaiseLowerBody(q.body);
    assert |p.body| == |q.body|;
    assert forall k :: 0 <= k < |p.body| ==> Some(p.body[k]) == Some(q.body[k]);
  }

  // ---------------------------------------------------------------------------
  // The arena

  /** A node of the new tree as stored in a slice. A call holds its callee's name and the
      index of its `arguments` slice; a statement holds the call it wraps in the same form. */
  datatype OutNode =
    | OutNumber(value: string)
    | OutString(value: string)
    | OutCall(name: string, arguments: nat)
    | OutStatement(name: string, arguments: nat)

  type Slices = seq<seq<OutNode>>

  /** An item stored in slice `i` points only at a later slice that exists. */
  predicate RefOk(h: Slices, i: nat, o: OutNode) {
    (o.OutCall? || o.OutStatement?) ==> i < o.arguments < |h|
  }

  predicate Linked(h: Slices) {
    forall i | 0 <= i < |h| :: forall o <- h[i] :: RefOk(h, i, o)
  }

  function ResolveItems(h: Slices, i: nat, items: seq<OutNode>): (r: seq<T.Node>)
    requires Linked(h) && i < |h| && forall o <- items :: RefOk(h, i, o)
    ensures |r| == |items|
    decreases |h| - i, |items|
  {
    if items == [] then []
    else [ResolveOut(h, i, items[0])] + ResolveItems(h, i, items[1..])
  }

  function ResolveOut(h: Slices, i: nat, o: OutNode): T.Node
    requires Linked(h) && i < |h| && RefOk(h, i, o)
    decreases |h| - i, 0
  {
    match o
    case OutNumber(v) => T.NumberLiteral(v)
    case OutString(v) => T.StringLiteral(v)
    case OutCall(name, a) =>
      T.CallExpression(T.Identifier(name), ResolveItems(h, a, h[a]))
    case OutStatement(name, a) =>
      T.ExpressionStatement(T.CallExpression(T.Identifier(name), ResolveItems(h, a, h[a])))
  }

  /** `*context = append(*context, o)`. */
  function Push(h: Slices, c: nat, o: OutNode): (r: Slices)
    requires c < |h|
    ensures |r| == |h| && r[c] == h[c] + [o]
    ensures forall j :: 0 <= j < |h| && j != c ==> r[j] == h[j]
  {
    h[c := h[c] + [o]]
  }

  /** The parent of the node being visited: its `nodeType` and the slice its `_context` points at. */
  datatype ParentView = ParentView(nodeType: string, context: nat)

  /** The node the call visitor appends: wrapped in an expression statement unless the parent
      is a call. */
  function Placed(parent: ParentView, name: string, arguments: nat): (o: OutNode)
    ensures (o.OutCall? || o.OutStatement?) && o.arguments == arguments && o.name == name
    ensures o.OutStatement? <==> parent.nodeType != "CallExpression"
  {
    if parent.nodeType != "CallExpression" then OutStatement(name, arguments)
    else OutCall(name, arguments)
  }

  /** The arena after visiting `n` and its descendants in pre-order. */
  function EmitNode(h: Slices, n: S.Node, parent: ParentView): (r: Slices)
    requires parent.context < |h|
    ensures |r| >= |h|
    decreases n
  {
    match n
    case NumberLiteral(v) => Push(h, parent.context, OutNumber(v))
    case StringLiteral(v) => Push(h, parent.context, OutString(v))
    case CallExpression(name, params) =>
      var arguments := |h|;
      var h1 := Push(h + [[]], parent.context, Placed(parent, name, arguments));
      EmitSeq(h1, params, ParentView("CallExpression", arguments))
  }

  function EmitSeq(h: Slices, ns: seq<S.Node>, parent: ParentView): (r: Slices)
    requires parent.context < |h|
    ensures |r| >= |h|
    decreases ns
  {
    if ns == [] then h else EmitSeq(EmitNode(h, ns[0], parent), ns[1..], parent)
  }

  lemma {:induction false} EmitSeqSnoc(h: Slices, ns: seq<S.Node>, n: S.Node, parent: ParentView)
    requires parent.context < |h|
    ensures EmitSeq(h, ns + [n], parent) == EmitNode(EmitSeq(h, ns, parent), n, parent)
    decreases ns
  {
    if ns == [] {
      assert [n][1..] == [];
    } else {
      assert (ns + [n])[0] == ns[0] && (ns + [n])[1..] == ns[1..] + [n];
      EmitSeqSnoc(EmitNode(h, ns[0], parent), ns[1..], n, parent);
    }
  }

  // ---------------------------------------------------------------------------
  // The arena resolves to the lowered tree

  lemma PushLinked(h: Slices, c: nat, o: OutNode)
    requires Linked(h) && c < |h| && RefOk(h, c, o)
    ensures Linked(Push(h, c, o))
  {
    var r := Push(h, c, o);
    forall i | 0 <= i < |r|
      ensures forall x <- r[i] :: RefOk(r, i, x)
    {
      if i == c {
        assert forall x <- h[c] :: RefOk(h, c, x);
      } else {
        assert r[i] == h[i];
      }
    }
  }

  lemma GrowLinked(h: Slices)
    requires Linked(h)
    ensures Linked(h + [[]])
  {
    var r := h + [[]];
    forall i | 0 <= i < |r|
      ensures forall x <- r[i] :: RefOk(r, i, x)
    {
      if i < |h| {
        assert r[i] == h[i];
        assert forall x <- h[i] :: RefOk(h, i, x);
      }
    }
  }

  /** Resolving the items of slice `i` looks only at the slices after `i`. */
  lemma {:induction false} ResolveItemsFrame(h1: Slices, h2: Slices, i: nat, items: seq<OutNode>)
    requires Linked(h1) && Linked(h2) && i < |h1| <= |h2|
    requires forall j :: i < j < |h1| ==> h2[j] == h1[j]
    requires forall o <- items :: RefOk(h1, i, o)
    ensures forall o <- items :: RefOk(h2, i, o)
    ensures ResolveItems(h2, i, items) == ResolveItems(h1, i, items)
    decreases |h1| - i, |items|
  {
    if items != [] {
      ResolveOutFrame(h1, h2, i, items[0]);
      ResolveItemsFrame(h1, h2, i, items[1..]);
    }
  }

  lemma {:induction false} ResolveOutFrame(h1: Slices, h2: Slices, i: nat, o: OutNode)
    requires Linked(h1) && Linked(h2) && i < |h1| <= |h2|
    requires forall j :: i < j < |h1| ==> h2[j] == h1[j]
    requires RefOk(h1, i, o)
    ensures ResolveOut(h2, i, o) == ResolveOut(h1, i, o)
    decreases |h1| - i, 0
  {
    if o.OutCall? || o.OutStatement? {
      var a := o.arguments;
      assert h2[a] == h1[a];
      ResolveItemsFrame(h1, h2, a, h1[a]);
    }
  }

  /** Visiting a node appends exactly one item to the parent's slice, leaves every other
      existing slice alone, and the item resolves to the lowered node. */
  lemma {:induction false} EmitNodeResolves(h: Slices, n: S.Node, parent: ParentView)
    requires Linked(h) && parent.context < |h|
    ensures var r := EmitNode(h, n, parent);
      var c := parent.context;
      && Linked(r)
      && (forall j :: 0 <= j < |h| && j != c ==> r[j] == h[j])
      && |r[c]| == |h[c]| + 1 && r[c][..|h[c]|] == h[c]
      && RefOk(r, c, r[c][|h[c]|])
      && ResolveOut(r, c, r[c][|h[c]|]) == LowerNode(n, parent.nodeType == "CallExpression")
    decreases n
  {
    var c := parent.context;
    match n
    case NumberLiteral(v) =>
      PushLinked(h, c, OutNumber(v));
      assert (h[c] + [OutNumber(v)])[..|h[c]|] == h[c];
    case StringLiteral(v) =>
      PushLinked(h, c, OutString(v));
      assert (h[c] + [OutString(v)])[..|h[c]|] == h[c];
    case CallExpression(name, params) =>
      var a := |h|;
      var item := Placed(parent, name, a);
      GrowLinked(h);
      assert (h + [[]])[c] == h[c] && (h + [[]])[a] == [];
      PushLinked(h + [[]], c, item);
      var h1 := Push(h + [[]], c, item);
      var inner := ParentView("CallExpression", a);
      EmitSeqResolves(h1, params, inner);
      var r := EmitSeq(h1, params, inner);
      assert r == EmitNode(h, n, parent);
      assert r[c] == h1[c] == h[c] + [item];
      assert r[a][0..] == r[a];
      assert (h[c] + [item])[..|h[c]|] == h[c];
      assert forall j :: 0 <= j < |h| && j != c ==> r[j] == h1[j] == h[j];
  }

  /** Visiting a list of siblings appends one item per sibling, in order, to the parent's slice,
      leaves every other existing slice alone, and the items resolve to the lowered siblings. */
  lemma {:induction false} EmitSeqResolves(h: Slices, ns: seq<S.Node>, parent: ParentView)
    requires Linked(h) && parent.context < |h|
    ensures var r := EmitSeq(h, ns, parent);
      var c := parent.context;
      && Linked(r)
      && (forall j :: 0 <= j < |h| && j != c ==> r[j] == h[j])
      && |r[c]| == |h[c]| + |ns| && r[c][..|h[c]|] == h[c]
      && ResolveItems(r, c, r[c][|h[c]|..]) == LowerSeq(ns, parent.nodeType == "CallExpression")
    decreases ns
  {
    var c := parent.context;
    var inCall := parent.nodeType == "CallExpression";
    if ns == [] {
      assert h[c][|h[c]|..] == [];
    } else {
      var h1 := EmitNode(h, ns[0], parent);
      EmitNodeResolves(h, ns[0], parent);
      var item := h1[c][|h[c]|];
      EmitSeqResolves(h1, ns[1..], parent);
      var r := EmitSeq(h1, ns[1..], parent);
      assert r == EmitSeq(h, ns, parent);
      ResolveOutFrame(h1, r, c, item);
      SliceStep(h[c], h1[c], r[c], item);
      var rest := r[c][|h1[c]|..];
      assert r[c][|h[c]|..] == [item] + rest;
      assert ResolveItems(r, c, [item] + rest) == [ResolveOut(r, c, item)] + ResolveItems(r, c, rest);
    }
  }

  /** The parent's slice grown by one item and then by more. */
  lemma SliceStep(s0: seq<OutNode>, s1: seq<OutNode>, s2: seq<OutNode>, item: OutNode)
    requires |s1| == |s0| + 1 && s1[..|s0|] == s0 && s1[|s0|] == item
    requires |s2| >= |s1| && s2[..|s1|] == s1
    ensures s2[..|s0|] == s0
    ensures s2[|s0|..] == [item] + s2[|s1|..]
  {
    assert s2[..|s0|] == s1[..|s0|];
  }

  /** The whole traversal, from an empty `astNewBody`, resolves to the lowered program. */
  lemma EmitProgramLowers(p: S.Program)
    ensures var r := EmitSeq([[]], p.body, ParentView("Program", 0));
      Linked(r) && ResolveItems(r, 0, r[0]) == Lower(p).body
  {
    var h: Slices := [[]];
    assert Linked(h);
    EmitSeqResolves(h, p.body, ParentView("Program", 0));
    var r := EmitSeq(h, p.body, ParentView("Program", 0));
    assert r[0][0..] == r[0];
  }

  // ---------------------------------------------------------------------------
  // The code

  /** The three `enter` closures `transformer` installs. */
  datatype Visitor = NumberLiteralVisitor | StringLiteralVisitor | CallExpressionVisitor

  /** The visitor map once `transformer` has filled it. */
  function TransformerVisitors(): (m: map<string, Visitor>)
    ensures forall n: S.Node :: S.TypeName(n) in m
  {
    map["NumberLiteral" := NumberLiteralVisitor,
        "StringLiteral" := StringLiteralVisitor,
        "CallExpression" := CallExpressionVisitor]
  }

  /** The global state of a transformation: the `visitors` map and the slices reachable from
      `astNewBody` (slice 0). */
  class TransformState {
    var visitors: map<string, Visitor>
    var slices: Slices

    constructor ()
      ensures visitors == map[] && slices == [[]]
    {
      visitors := map[];
      slices := [[]];
    }

    /** The three visitor installations at the start of `transformer`. */
    method InstallVisitors()
      modifies this
      ensures visitors == old(visitors) + TransformerVisitors()
      ensures slices == old(slices)
    {
      visitors := visitors["NumberLiteral" := NumberLiteralVisitor];
      visitors := visitors["StringLiteral" := StringLiteralVisitor];
      visitors := visitors["CallExpression" := CallExpressionVisitor];
    }

    /** Run visitor `v` on `node`: append the new node to the slice of the parent's `_context`.
        The call visitor first allocates the new call's `arguments` slice and returns it as the
        node's own `_context`. */
    method Enter(v: Visitor, node: S.Node, parent: ParentView) returns (context: Option<nat>)
      requires parent.context < |slices|
      modifies this
      ensures visitors == old(visitors)
      ensures v == NumberLiteralVisitor ==>
        context == None && slices == Push(old(slices), parent.context, OutNumber(S.Value(node)))
      ensures v == StringLiteralVisitor ==>
        context == None && slices == Push(old(slices), parent.context, OutString(S.Value(node)))
      ensures v == CallExpressionVisitor ==>
        var arguments := |old(slices)|;
        context == Some(arguments)
        && slices == Push(old(slices) + [[]], parent.context, Placed(parent, S.Name(node), arguments))
    {
      match v
      case NumberLiteralVisitor =>
        slices := Push(slices, parent.context, OutNumber(S.Value(node)));
        context := None;
      case StringLiteralVisitor =>
        slices := Push(slices, parent.context, OutString(S.Value(node)));
        context := None;
      case CallExpressionVisitor =>
        var arguments := |slices|;
        slices := slices + [[]];
        context := Some(arguments);
        if parent.nodeType != "CallExpression" {
          slices := Push(slices, parent.context, OutStatement(S.Name(node), arguments));
        } else {
          slices := Push(slices, parent.context, OutCall(S.Name(node), arguments));
        }
    }

    /** `traversalNode`: look up the node's visitor, run it, then visit a call's parameters
        with the call as their parent. */
    method TraversalNode(node: S.Node, parent: ParentView)
      requires visitors == TransformerVisitors() && parent.context < |slices|
      modifies this
      ensures visitors == old(visitors)
      ensures slices == EmitNode(old(slices), node, parent)
      decreases node
    {
      var nodeType := S.TypeName(node);
      var context: Option<nat> := None;
      if nodeType in visitors {
        context := Enter(visitors[nodeType], node, parent);
      }
      if node.CallExpression? {
        match context
        case Some(arguments) =>
          TraversalArray(node.params, ParentView(nodeType, arguments));
        case None =>
          assert false;
      }
    }

    /** `traversalArray`: visit the nodes in order under the same parent. */
    method TraversalArray(nodes: seq<S.Node>, parent: ParentView)
      requires visitors == TransformerVisitors() && parent.context < |slices|
      modifies this
      ensures visitors == old(visitors)
      ensures slices == EmitSeq(old(slices), nodes, parent)
      decreases nodes
    {
      for i := 0 to |nodes|
        invariant visitors == TransformerVisitors()
        invariant slices == EmitSeq(old(slices), nodes[..i], parent)
      {
        EmitSeqSnoc(old(slices), nodes[..i], nodes[i], parent);
        assert nodes[..i + 1] == nodes[..i] + [nodes[i]];
        TraversalNode(nodes[i], parent);
      }
      assert nodes[..|nodes|] == nodes;
    }

    /** `traversal`: the root has no visitor; its body is visited with the root as parent,
        whose `_context` is `astNewBody`. */
    method Traversal(ast: S.Program)
      requires visitors == TransformerVisitors() && |slices| > 0
      modifies this
      ensures visitors == old(visitors)
      ensures slices == EmitSeq(old(slices), ast.body, ParentView("Program", 0))
    {
      TraversalArray(ast.body, ParentView("Program", 0));
    }
  }

  /** `transformer`, from a fresh `astNewBody` and visitor map; the result is the new tree as
      the generator reads it through the pointers. */
  method Transformer(ast: S.Program) returns (astNew: T.Program)
    ensures astNew == Lower(ast)
  {
    var state := new TransformState();
    state.InstallVisitors();
    assert state.visitors == TransformerVisitors();
    state.Traversal(ast);
    EmitProgramLowers(ast);
    astNew := T.Program(ResolveItems(state.slices, 0, state.slices[0]));
  }
}
