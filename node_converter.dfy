/**
 * The expression compiler: the translation of a lambda literal's syntax tree into an expression
 * `Node`, dispatched on the production name of each syntax node.
 *
 * Translation may throw (a missing child, a failed `!!`, a number out of range); it is written here
 * as a function into `Outcome<Node>`, and the entry point `Convert` turns what it catches into an
 * `Error` node. Chains (`a + b + c`, `a.b.c`, `f(x)` under a qualified receiver) are folded by
 * re-entering the translation on a synthetic node whose first child is the part already translated
 * (`Converted`); such a node weighs nothing, so every re-entry is on a smaller tree.
 *
 * The translation comes in two revisions: `AsWritten` is the repository's, `Corrected` repairs the
 * defects listed in the README's findings and is the one the splicer uses.
 */
module NodeConverter {
  import opened Wrappers
  import opened Text
  import opened Nodes
  import opened Selectors
  import opened Collapse
  import opened Lookups
  import O = ConverterOptions

  datatype Revision = AsWritten | Corrected

  /**
   * What the translation of a node depends on besides the node: the receiver path that plain names
   * are references of, whether plain names are top-level values, the lambda's parameter names (a
   * parameter's index is its position) and the options.
   */
  datatype Context = Context(
    referencePrefix: Option<string>,
    topLevelVals: bool,
    argumentNames: seq<string>,
    options: O.Options)

  /** `toSet()` of a list: the distinct elements, each at its first occurrence. */
  function Distinct(xs: seq<string>): (r: seq<string>)
    ensures forall x :: x in r <==> x in xs
    ensures forall i, j :: 0 <= i < j < |r| ==> r[i] != r[j]
    ensures |xs| > 0 ==> |r| > 0 && r[0] == xs[0]
  {
    if xs == [] then []
    else
      var r := Distinct(xs[..|xs| - 1]);
      assert xs == xs[..|xs| - 1] + [xs[|xs| - 1]];
      if xs[|xs| - 1] in r then r else r + [xs[|xs| - 1]]
  }

  /** The position of the first occurrence of `x`. */
  function IndexOf(xs: seq<string>, x: string): (r: nat)
    requires x in xs
    ensures r < |xs| && xs[r] == x && x !in xs[..r]
  {
    if xs[0] == x then 0
    else
      var k := IndexOf(xs[1..], x);
      assert xs[..k + 1] == [xs[0]] + xs[1..][..k];
      k + 1
  }

  function Texts(nodes: seq<Ast>): (r: seq<string>)
    ensures |r| == |nodes| && forall i :: 0 <= i < |nodes| ==> r[i] == TextOf(nodes[i])
  {
    seq(|nodes|, i requires 0 <= i < |nodes| => TextOf(nodes[i]))
  }

  /** The declared parameter names of the lambda, in order. */
  function DeclaredParameters(tree: Ast): seq<string>
  {
    Texts(All(tree, Named1("lambdaParameter")))
  }

  /**
   * The parameter names the translation uses: the distinct declared names in order of first
   * declaration, or just `it` when none are declared.
   */
  function ArgumentNames(tree: Ast): (r: seq<string>)
    ensures |r| > 0
    ensures DeclaredParameters(tree) == [] ==> r == ["it"]
    ensures DeclaredParameters(tree) != [] ==>
      r[0] == DeclaredParameters(tree)[0] && forall x :: x in r <==> x in DeclaredParameters(tree)
    ensures forall i, j :: 0 <= i < j < |r| ==> r[i] != r[j]
  {
    var declared := DeclaredParameters(tree);
    Distinct(if declared == [] then ["it"] else declared)
  }

  /** Approximations of the JVM's messages for the failures the translation can run into. */
  function IndexOutOfBounds(i: int, length: nat): string
  {
    if length == 0 then "Empty list doesn't contain element at index " + IntToString(i) + "."
    else "Index " + IntToString(i) + " out of bounds for length " + NatToString(length)
  }

  const ListIsEmpty: string := "List is empty."

  /** The text `Error` carries when the exception had no message (corrected revision only). */
  const NullPointerName: string := "java.lang.NullPointerException"

  /** `node[i]`, which throws when the node has no i-th child. */
  function Child(node: Ast, i: int): (r: Outcome<Ast>)
    ensures r.Ok? <==> 0 <= i < |ChildrenOf(node)|
    ensures r.Ok? ==> r.value == ChildrenOf(node)[i] && AstSize(r.value) < AstSize(node)
    ensures r.Throw? ==> r.message == Some(IndexOutOfBounds(i, |ChildrenOf(node)|))
  {
    match ChildAt(node, i)
    case Some(c) => ChildSmaller(node, c); Ok(c)
    case None => Throw(Some(IndexOutOfBounds(i, |ChildrenOf(node)|)))
  }

  /** The children that are not tokens (the arguments inside the parentheses of a call). */
  function NonTerminals(cs: seq<Ast>): (r: seq<Ast>)
    ensures |r| <= |cs|
    ensures forall x :: x in r <==> x in cs && !x.Terminal?
  {
    if cs == [] then []
    else if cs[0].Terminal? then NonTerminals(cs[1..])
    else [cs[0]] + NonTerminals(cs[1..])
  }

  /** The parts of a string literal: its text segments and its `${...}` segments, in order. */
  function Segments(cs: seq<Ast>): (r: seq<Ast>)
    ensures |r| <= |cs|
    ensures forall x :: x in r <==> x in cs && IsSegment(x)
  {
    if cs == [] then []
    else if IsSegment(cs[0]) then [cs[0]] + Segments(cs[1..])
    else Segments(cs[1..])
  }

  predicate IsSegment(a: Ast)
  {
    Description(a) == "lineStringExpression" || Description(a) == "lineStringContent"
  }

  /** A text segment that is a `$name` reference. */
  predicate IsReference(a: Ast)
  {
    var t := TextOf(a);
    Description(a) == "lineStringContent" && |t| > 1 && t[0] == '$'
  }

  /**
   * Whether a string literal is translated part by part. As written, only a literal holding a
   * `${...}` expression is; the corrected revision also takes a literal with a `$name` reference.
   */
  predicate IsTemplate(node: Ast, rev: Revision)
  {
    FirstNamed(node, "lineStringExpression").Some?
    || (rev == Corrected && exists s :: s in Segments(ChildrenOf(node)) && IsReference(s))
  }

  /** A text segment: a parameter reference (`$name`) or literal text. */
  function ContentNode(text: string, ctx: Context): (r: Node)
    ensures RemovePrefix(text, "$") in ctx.argumentNames ==>
      r.LambdaArgument? && 0 <= r.number < |ctx.argumentNames|
      && ctx.argumentNames[r.number] == RemovePrefix(text, "$")
    ensures RemovePrefix(text, "$") !in ctx.argumentNames ==> r == Value(StringValue(text))
  {
    var name := RemovePrefix(text, "$");
    if name in ctx.argumentNames then LambdaArgument(IndexOf(ctx.argumentNames, name))
    else Value(StringValue(text))
  }

  /** The symbol table's entry for a name, if any. */
  function SymbolOf(name: string, ctx: Context): Option<O.SymbolType>
  {
    if name in ctx.options.symbolTypes then Some(ctx.options.symbolTypes[name]) else None
  }

  /** How a plain name is read, by a fixed order of precedence. */
  function ResolveIdentifier(name: string, ctx: Context): (r: Node)
  {
    if name in ctx.argumentNames then LambdaArgument(IndexOf(ctx.argumentNames, name))
    else if SymbolOf(name, ctx) == Some(O.Identifier) then Identifier(name)
    else if ctx.topLevelVals then Val(name)
    else if ctx.referencePrefix.Some? then Ref(ctx.referencePrefix.value + Scope + name)
    else Identifier(name)
  }

  /** How the name of a called function is read, by a fixed order of precedence. */
  function ResolveCallName(name: string, ctx: Context): (r: Outcome<Node>)
  {
    if ctx.options.upperCaseIsClassName && |name| == 0 then Throw(Some(IndexOutOfBounds(0, 1)))
    else if ctx.options.upperCaseIsClassName && IsUpperCase(name[0]) then Ok(Ref(name + "::class"))
    else if SymbolOf(name, ctx) == Some(O.Constructor) then Ok(Ref(name + "::class"))
    else if SymbolOf(name, ctx) == Some(O.Identifier) then Ok(Identifier(name))
    else if ctx.topLevelVals then Ok(Ref(Scope + name))
    else if ctx.referencePrefix.Some? then Ok(Ref(ctx.referencePrefix.value + Scope + name))
    else Ok(Identifier(name))
  }

  /** The binary productions that pick their operator by token. */
  datatype Family = Comparison | Equality | Multiplicative | Additive

  function OperatorProduction(f: Family): string
  {
    match f
    case Comparison => "comparisonOperator"
    case Equality => "equalityOperator"
    case Multiplicative => "multiplicativeOperator"
    case Additive => "additiveOperator"
  }

  /** Only additive and multiplicative expressions come as chains of several operators. */
  predicate Chains(f: Family)
  {
    f == Multiplicative || f == Additive
  }

  /** The operator a token stands for in a family; `None` for a token the translation leaves unknown. */
  function OperatorFor(f: Family, kind: string): (r: Option<BinaryOp>)
    ensures r.Some? ==> (match f
      case Comparison => r.value in {Less, Greater, LessOrEqual, GreaterOrEqual}
      case Equality => r.value in {Equal, NotEqual}
      case Multiplicative => r.value in {Multiply, Divide}
      case Additive => r.value in {Plus, Minus})
  {
    match f
    case Comparison =>
      if kind == "LANGLE" then Some(Less)
      else if kind == "RANGLE" then Some(Greater)
      else if kind == "LE" then Some(LessOrEqual)
      else if kind == "GE" then Some(GreaterOrEqual)
      else None
    case Equality =>
      if kind == "EQEQ" then Some(Equal) else if kind == "EXCL_EQ" then Some(NotEqual) else None
    case Multiplicative =>
      if kind == "MULT" then Some(Multiply) else if kind == "DIV" then Some(Divide) else None
    case Additive =>
      if kind == "ADD" then Some(Plus) else if kind == "SUB" then Some(Minus) else None
  }

  /** `o["<family>Operator .terminal"]`: the operator token below the operator node. */
  function OperatorToken(o: Ast, f: Family): (r: Option<Ast>)
    ensures r.Some? ==> !o.Converted?
  {
    var sel := Anywhere(Named(OperatorProduction(f)), [Step(Descendant, AnyTerminal)]);
    if o.Converted? then
      NothingInConverted(o, OperatorProduction(f), [Step(Descendant, AnyTerminal)]);
      First(o, sel)
    else First(o, sel)
  }

  /** A translated node has no syntax below it: no selector but one for its own description finds anything. */
  lemma NothingInConverted(o: Ast, name: string, rest: seq<Step>)
    requires o.Converted? && name != Description(o)
    ensures All(o, Anywhere(Named(name), rest)) == []
  {
    assert SelfAndDescendants(o) == [o];
    assert Keep([o], Named(name)) == Keep([], Named(name)) == [];
    if rest != [] {
      assert Advance([], rest[0]) == [];
      EmptyWalk(rest);
    }
  }

  lemma {:induction false} EmptyWalk(steps: seq<Step>)
    ensures Walk([], steps) == []
    decreases |steps|
  {
    if steps != [] {
      assert Advance([], steps[0]) == [];
      EmptyWalk(steps[1..]);
    }
  }

  /** The operator of an operator node, when its token is one the family knows. */
  function OperatorOf(o: Ast, f: Family): Option<BinaryOp>
  {
    match OperatorToken(o, f)
    case Some(t) => OperatorFor(f, Description(t))
    case None => None
  }

  /** Replacing the first `k` children, the second of which is a syntax node, by a translated node shrinks the tree. */
  lemma ReentrySmaller(node: Ast, k: nat, n: Node)
    requires node.Inner? && 2 <= k <= |node.children| && !node.children[1].Converted?
    ensures AstSize(Inner(node.description, [Converted(n)] + node.children[k..], None)) < AstSize(node)
  {
    var cs := node.children;
    SizeOfSplit(cs, k);
    assert cs[..k][1] == cs[1];
    ChildInDescendants(cs[..k], cs[1]);
    DescendantsOfAllSize(cs[..k], cs[1]);
    var rest := [Converted(n)] + cs[k..];
    assert rest[1..] == cs[k..];
    assert SizeOfAll(rest) == AstSize(rest[0]) + SizeOfAll(rest[1..]);
  }

  /** Replacing the last child of the head of a call by the translated call shrinks the tree. */
  lemma CallReentrySmaller(node: Ast, head: Ast, call: Node)
    requires head in ChildrenOf(node) && !head.Converted?
    ensures
      var hs := ChildrenOf(head);
      AstSize(Inner(Description(head), (if |hs| > 0 then hs[..|hs| - 1] else []) + [Converted(call)], None))
        < AstSize(node)
  {
    ChildSmaller(node, head);
    var hs := ChildrenOf(head);
    var kept := if |hs| > 0 then hs[..|hs| - 1] else [];
    ConvertedLastWeighsNothing(kept, call);
    if |hs| > 0 {
      SizeOfPrefix(hs, |hs| - 1);
    }
    assert SizeOfAll(kept) <= SizeOfAll(hs);
    assert AstSize(head) == 1 + SizeOfAll(hs);
  }

  /** A translated node appended to a list of trees adds nothing to its size. */
  lemma ConvertedLastWeighsNothing(kept: seq<Ast>, call: Node)
    ensures SizeOfAll(kept + [Converted(call)]) == SizeOfAll(kept)
  {
    var xs := kept + [Converted(call)];
    SizeOfSplit(xs, |kept|);
    assert xs[..|kept|] == kept;
    assert xs[|kept|..] == [Converted(call)];
    assert [Converted(call)][1..] == [];
  }

  /** A node found below `node` is smaller than it, and so are its children. */
  lemma FoundBelow(node: Ast, v: Ast)
    requires v in SelfAndDescendants(node) && v != node
    ensures AstSize(v) < AstSize(node)
    ensures forall x :: x in ChildrenOf(v) ==> AstSize(x) < AstSize(node)
  {
    assert v in Descendants(node);
    DescendantSmaller(node, v);
    forall x | x in ChildrenOf(v)
      ensures AstSize(x) < AstSize(node)
    {
      ChildSmaller(v, x);
    }
  }

  lemma ChildrenSmaller(node: Ast)
    ensures forall x :: x in ChildrenOf(node) ==> AstSize(x) < AstSize(node)
  {
    forall x | x in ChildrenOf(node)
      ensures AstSize(x) < AstSize(node)
    {
      ChildSmaller(node, x);
    }
  }

  /** `parseAst`: the translation of one syntax node. */
  function ParseAst(node: Ast, ctx: Context, rev: Revision): Outcome<Node>
    decreases AstSize(node), 3, 0
  {
    if node.Converted? then Ok(node.node)
    else
      var d := Description(node);
      if d == "lineStringLiteral" && IsTemplate(node, rev) then ParseTemplate(node, ctx, rev)
      else if d == "literalConstant" || d == "lineStringLiteral" then
        match ConstLiteral(node)
        case Throw(m) => Throw(m)
        case Ok(Some(v)) => Ok(Value(v))
        case Ok(None) => Ok(Unknown(node))
      else if d == "disjunction" then ParsePair(node, ctx, rev, Or)
      else if d == "conjunction" then ParsePair(node, ctx, rev, And)
      else if d == "comparison" then ParseOperation(node, ctx, rev, Comparison)
      else if d == "equality" then ParseOperation(node, ctx, rev, Equality)
      else if d == "postfixUnaryExpression" then
        match Child(node, 1)
        case Throw(m) => Throw(m)
        case Ok(suffix) =>
          if Description(suffix) == "valueArguments" then ParseCall(node, ctx, rev)
          else if Description(suffix) == "navigationSuffix" then ParseNavigation(node, ctx, rev)
          else Ok(Unknown(node))
      else if d == "multiplicativeExpression" then ParseOperation(node, ctx, rev, Multiplicative)
      else if d == "additiveExpression" then ParseOperation(node, ctx, rev, Additive)
      else if d == "simpleIdentifier" then Ok(ResolveIdentifier(TextOf(node), ctx))
      else if d == "infixOperation" then ParseInfix(node, ctx, rev)
      else if d == "genericCallLikeComparison" then ParseGenericCall(node, ctx, rev)
      else Ok(Unknown(node))
  }

  /** `parse(node[i])`. */
  function ParseChild(node: Ast, i: int, ctx: Context, rev: Revision): Outcome<Node>
    decreases AstSize(node), 0, 0
  {
    match Child(node, i)
    case Throw(m) => Throw(m)
    case Ok(c) => ParseAst(c, ctx, rev)
  }

  /** The nodes translated one after the other; the first failure stops the translation. */
  function ParseList(items: seq<Ast>, ghost bound: nat, ctx: Context, rev: Revision): (r: Outcome<seq<Node>>)
    requires forall x :: x in items ==> AstSize(x) < bound
    ensures r.Ok? ==> |r.value| == |items|
    decreases bound, 1, |items|
  {
    if items == [] then Ok([])
    else
      match ParseAst(items[0], ctx, rev)
      case Throw(m) => Throw(m)
      case Ok(n) =>
        match ParseList(items[1..], bound, ctx, rev)
        case Throw(m) => Throw(m)
        case Ok(ns) => Ok([n] + ns)
  }

  /** `Op(parse(node[0]), parse(node[2]))`. */
  function ParsePair(node: Ast, ctx: Context, rev: Revision, op: BinaryOp): Outcome<Node>
    decreases AstSize(node), 1, 0
  {
    match ParseChild(node, 0, ctx, rev)
    case Throw(m) => Throw(m)
    case Ok(left) =>
      match ParseChild(node, 2, ctx, rev)
      case Throw(m) => Throw(m)
      case Ok(right) => Ok(Binary(op, left, right))
  }

  /**
   * A comparison, equality, multiplicative or additive expression: the operator token picks the
   * operator; a chain continues on the rest of the children with the first pair translated.
   */
  function ParseOperation(node: Ast, ctx: Context, rev: Revision, f: Family): Outcome<Node>
    decreases AstSize(node), 2, 0
  {
    match Child(node, 1)
    case Throw(m) => Throw(m)
    case Ok(o) =>
      match OperatorToken(o, f)
      case None => Throw(None)
      case Some(t) =>
        var first := match OperatorFor(f, Description(t))
          case Some(op) => ParsePair(node, ctx, rev, op)
          case None => Ok(Unknown(node));
        match first
        case Throw(m) => Throw(m)
        case Ok(n) =>
          var cs := ChildrenOf(node);
          if Chains(f) && |cs| > 3 then
            ReentrySmaller(node, 3, n);
            ParseAst(Inner(Description(node), [Converted(n)] + cs[3..], None), ctx, rev)
          else Ok(n)
  }

  /** A string template: one translated part per segment, in order; a text segment is read by `ContentNode`. */
  function ParseTemplate(node: Ast, ctx: Context, rev: Revision): (r: Outcome<Node>)
    ensures r.Ok? ==> r.value.Concat? && |r.value.parts| == |Segments(ChildrenOf(node))|
    ensures r.Ok? ==> forall i :: 0 <= i < |Segments(ChildrenOf(node))| && Description(Segments(ChildrenOf(node))[i]) == "lineStringContent" ==>
      r.value.parts[i] == ContentNode(TextOf(Segments(ChildrenOf(node))[i]), ctx)
    decreases AstSize(node), 2, 0
  {
    ChildrenSmaller(node);
    match ParseSegments(Segments(ChildrenOf(node)), AstSize(node), ctx, rev)
    case Throw(m) => Throw(m)
    case Ok(parts) => Ok(Concat(parts))
  }

  function ParseSegments(segments: seq<Ast>, ghost bound: nat, ctx: Context, rev: Revision): (r: Outcome<seq<Node>>)
    requires forall x :: x in segments ==> AstSize(x) < bound
    ensures r.Ok? ==> |r.value| == |segments|
    ensures r.Ok? ==> forall i :: 0 <= i < |segments| && Description(segments[i]) == "lineStringContent" ==>
      r.value[i] == ContentNode(TextOf(segments[i]), ctx)
    ensures (forall x :: x in segments ==> Description(x) == "lineStringContent") ==> r.Ok?
    decreases bound, 1, |segments|
  {
    if segments == [] then Ok([])
    else
      var s := segments[0];
      var first := if Description(s) == "lineStringContent" then Ok(ContentNode(TextOf(s), ctx))
        else ParseChild(s, 1, ctx, rev);
      match first
      case Throw(m) => Throw(m)
      case Ok(n) =>
        match ParseSegments(segments[1..], bound, ctx, rev)
        case Throw(m) => Throw(m)
        case Ok(ns) => Ok([n] + ns)
  }

  /**
   * A call `f(args)` written as a postfix expression. As written, any further suffixes are dropped;
   * the corrected revision goes on with them, the call as their receiver.
   */
  function ParseCall(node: Ast, ctx: Context, rev: Revision): Outcome<Node>
    requires Description(node) == "postfixUnaryExpression"
    requires |ChildrenOf(node)| > 1 && Description(ChildrenOf(node)[1]) == "valueArguments"
    decreases AstSize(node), 2, 0
  {
    match ParseChild(node, 0, ctx, rev)
    case Throw(m) => Throw(m)
    case Ok(obj) =>
      match FirstNamed(node, "valueArguments")
      case None => Throw(None)
      case Some(v) =>
        FoundBelow(node, v);
        match ParseList(NonTerminals(ChildrenOf(v)), AstSize(node), ctx, rev)
        case Throw(m) => Throw(m)
        case Ok(args) =>
          var call := Call(obj, args);
          var cs := ChildrenOf(node);
          if rev == Corrected && |cs| > 2 then
            ReentrySmaller(node, 2, call);
            ParseAst(Inner(Description(node), [Converted(call)] + cs[2..], None),
              ctx.(topLevelVals := false, referencePrefix := None), rev)
          else Ok(call)
  }

  /** The receiver path a chain of member accesses continues with, when both sides have one. */
  function ChainPath(objId: Option<string>, prop: Node): Option<string>
  {
    if objId.Some? && (prop.Val? || prop.Ref?) then
      Some(ReferencePath(objId.value) + "." + NameWithoutPrefix(InternalIdentifierFrom(prop).value))
    else None
  }

  /** A member access `obj.name`, possibly followed by further suffixes. */
  function ParseNavigation(node: Ast, ctx: Context, rev: Revision): Outcome<Node>
    requires |ChildrenOf(node)| > 1 && Description(ChildrenOf(node)[1]) == "navigationSuffix"
    decreases AstSize(node), 2, 0
  {
    match ParseChild(node, 0, ctx, rev)
    case Throw(m) => Throw(m)
    case Ok(obj) =>
      var objId := InternalIdentifierFrom(obj);
      var propCtx := ctx.(topLevelVals := false,
        referencePrefix := if objId.Some? then Some(ReferencePath(objId.value)) else ctx.referencePrefix);
      var suffix := ChildrenOf(node)[1];
      match FirstNamed(suffix, "simpleIdentifier")
      case None => Throw(None)
      case Some(p) =>
        ChildSmaller(node, suffix);
        SelfAndDescendantsSize(suffix, p);
        match ParseAst(p, propCtx, rev)
        case Throw(m) => Throw(m)
        case Ok(prop) =>
          var firstPart := GetProperty(obj, prop);
          var cs := ChildrenOf(node);
          if |cs| > 2 then
            ReentrySmaller(node, 2, firstPart);
            ParseAst(Inner(Description(node), [Converted(firstPart)] + cs[2..], None),
              ctx.(topLevelVals := false, referencePrefix := ChainPath(objId, prop)), rev)
          else Ok(firstPart)
  }

  /** `x name y`: a call of the infix function `name`. */
  function ParseInfix(node: Ast, ctx: Context, rev: Revision): Outcome<Node>
    decreases AstSize(node), 2, 0
  {
    match Child(node, 1)
    case Throw(m) => Throw(m)
    case Ok(name) =>
      match ParseChild(node, 0, ctx, rev)
      case Throw(m) => Throw(m)
      case Ok(left) =>
        match ParseChild(node, 2, ctx, rev)
        case Throw(m) => Throw(m)
        case Ok(right) => Ok(Call(Identifier(TextOf(name)), [left, right]))
  }

  /**
   * A call `name(args)` whose name is the last token of its head. When the head is more than a
   * name (`a.b.name`), the head is translated again with the call in place of its last part.
   */
  function ParseGenericCall(node: Ast, ctx: Context, rev: Revision): Outcome<Node>
    requires Description(node) == "genericCallLikeComparison"
    decreases AstSize(node), 2, 0
  {
    match Child(node, 0)
    case Throw(m) => Throw(m)
    case Ok(head) =>
      var ts := Terminals(head);
      if |ts| == 0 then Throw(Some(ListIsEmpty))
      else
        var methodName := ts[|ts| - 1].text;
        match FirstNamed(node, "valueArguments")
        case None => Throw(None)
        case Some(v) =>
          FoundBelow(node, v);
          match ParseList(NonTerminals(ChildrenOf(v)), AstSize(node), ctx, rev)
          case Throw(m) => Throw(m)
          case Ok(args) =>
            match ResolveCallName(methodName, ctx)
            case Throw(m) => Throw(m)
            case Ok(callee) =>
              var call := Call(callee, args);
              if Description(head) != "simpleIdentifier" then
                var hs := ChildrenOf(head);
                CallReentrySmaller(node, head, call);
                ParseAst(Inner(Description(head), (if |hs| > 0 then hs[..|hs| - 1] else []) + [Converted(call)], None),
                  ctx, rev)
              else Ok(call)
  }

  // ---------------------------------------------------------------------------
  // The entry point
  // ---------------------------------------------------------------------------

  /** Every statement in the lambda's tree. */
  function Statements(tree: Ast): seq<Ast>
  {
    All(tree, Named1("statement"))
  }

  /** The context a lambda's statement is translated in. */
  function EntryContext(tree: Ast, options: O.Options): Context
  {
    Context(None, true, ArgumentNames(tree), O.WithDefaultSymbols(options))
  }

  /** The translation of the single statement, collapsed first; a statement that collapses to nothing fails `!!`. */
  function Translation(tree: Ast, options: O.Options, rev: Revision): Outcome<Node>
    requires |Statements(tree)| == 1
  {
    match Collapse.Collapse(Statements(tree)[0])
    case None => Throw(None)
    case Some(statement) => ParseAst(statement, EntryContext(tree, options), rev)
  }

  /**
   * `convert`: an empty lambda and one with several statements are errors; otherwise a failure
   * of the translation becomes an `Error` node carrying the exception's message. As written, a
   * failure without a message escapes (the handler's own `!!` fails); corrected, it never does.
   */
  function Convert(tree: Ast, options: O.Options, rev: Revision): (r: Outcome<Node>)
    ensures |Statements(tree)| == 0 ==> r == Ok(Error("Lambda is empty"))
    ensures |Statements(tree)| > 1 ==> r == Ok(Error("Too complex lambda"))
    ensures |Statements(tree)| == 1 ==>
      match Translation(tree, options, rev)
      case Ok(n) => r == Ok(n)
      case Throw(Some(m)) => r == Ok(Error(m))
      case Throw(None) => r.Throw? <==> rev == AsWritten
    ensures r.Throw? ==> rev == AsWritten && r.message == None
  {
    var statements := Statements(tree);
    if |statements| == 0 then Ok(Error("Lambda is empty"))
    else if |statements| > 1 then Ok(Error("Too complex lambda"))
    else
      match Translation(tree, options, rev)
      case Ok(n) => Ok(n)
      case Throw(Some(m)) => Ok(Error(m))
      case Throw(None) => if rev == AsWritten then Throw(None) else Ok(Error(NullPointerName))
  }

  /**
   * The corrected `convert`, which never throws: a failure without a message becomes an `Error`
   * too, naming the exception.
   */
  function ConvertCorrected(tree: Ast, options: O.Options): (r: Node)
    ensures |Statements(tree)| == 0 ==> r == Error("Lambda is empty")
    ensures |Statements(tree)| > 1 ==> r == Error("Too complex lambda")
    ensures |Statements(tree)| == 1 ==>
      match Translation(tree, options, Corrected)
      case Ok(n) => r == n
      case Throw(Some(m)) => r == Error(m)
      case Throw(None) => r == Error(NullPointerName)
  {
    match Convert(tree, options, Corrected)
    case Ok(n) => n
    case Throw(_) => assert false; Error(NullPointerName)
  }

  // ---------------------------------------------------------------------------
  // Laws of the translation
  // ---------------------------------------------------------------------------

  /** One step of `ParseAst` on an operator production. */
  lemma DispatchOperation(node: Ast, ctx: Context, rev: Revision, f: Family)
    requires !node.Converted? && Description(node) == ProductionOf(f)
    ensures ParseAst(node, ctx, rev) == ParseOperation(node, ctx, rev, f)
  {
    if f == Comparison || f == Equality {
      DispatchComparing(node, ctx, rev, f);
    } else if f == Multiplicative {
      DispatchMultiplicative(node, ctx, rev);
    } else {
      DispatchAdditive(node, ctx, rev);
    }
  }

  lemma DispatchComparing(node: Ast, ctx: Context, rev: Revision, f: Family)
    requires f == Comparison || f == Equality
    requires !node.Converted? && Description(node) == ProductionOf(f)
    ensures ParseAst(node, ctx, rev) == ParseOperation(node, ctx, rev, f)
  {
  }

  lemma DispatchMultiplicative(node: Ast, ctx: Context, rev: Revision)
    requires !node.Converted? && Description(node) == "multiplicativeExpression"
    ensures ParseAst(node, ctx, rev) == ParseOperation(node, ctx, rev, Multiplicative)
  {
  }

  lemma DispatchAdditive(node: Ast, ctx: Context, rev: Revision)
    requires !node.Converted? && Description(node) == "additiveExpression"
    ensures ParseAst(node, ctx, rev) == ParseOperation(node, ctx, rev, Additive)
  {
  }

  /** One step of `ParseAst` on a member access. */
  lemma DispatchNavigation(node: Ast, ctx: Context, rev: Revision)
    requires !node.Converted? && Description(node) == "postfixUnaryExpression"
    requires |ChildrenOf(node)| > 1 && Description(ChildrenOf(node)[1]) == "navigationSuffix"
    ensures ParseAst(node, ctx, rev) == ParseNavigation(node, ctx, rev)
  {
  }

  /** One step of `ParseAst` on a postfix call. */
  lemma DispatchCall(node: Ast, ctx: Context, rev: Revision)
    requires !node.Converted? && Description(node) == "postfixUnaryExpression"
    requires |ChildrenOf(node)| > 1 && Description(ChildrenOf(node)[1]) == "valueArguments"
    ensures ParseAst(node, ctx, rev) == ParseCall(node, ctx, rev)
  {
  }

  /** One step of `ParseAst` on an infix call. */
  lemma DispatchInfix(node: Ast, ctx: Context, rev: Revision)
    requires !node.Converted? && Description(node) == "infixOperation"
    ensures ParseAst(node, ctx, rev) == ParseInfix(node, ctx, rev)
  {
  }

  /**
   * `obj.name` followed by whatever suffixes remain: the access is translated with the receiver's
   * path as the property's prefix, and the remaining suffixes go on with the access as receiver.
   */
  lemma NavigationStep(node: Ast, ctx: Context, rev: Revision, obj: Node, p: Ast, prop: Node)
    requires node.Inner? && node.description == "postfixUnaryExpression"
    requires |node.children| > 1 && Description(node.children[1]) == "navigationSuffix"
    requires ParseAst(node.children[0], ctx, rev) == Ok(obj)
    requires FirstNamed(node.children[1], "simpleIdentifier") == Some(p)
    requires var objId := InternalIdentifierFrom(obj);
      ParseAst(p, ctx.(topLevelVals := false,
        referencePrefix := if objId.Some? then Some(ReferencePath(objId.value)) else ctx.referencePrefix), rev)
      == Ok(prop)
    ensures |node.children| == 2 ==> ParseAst(node, ctx, rev) == Ok(GetProperty(obj, prop))
    ensures |node.children| > 2 ==> (ParseAst(node, ctx, rev) ==
      ParseAst(Inner(node.description, [Converted(GetProperty(obj, prop))] + node.children[2..], None),
        ctx.(topLevelVals := false, referencePrefix := ChainPath(InternalIdentifierFrom(obj), prop)), rev))
  {
    DispatchNavigation(node, ctx, rev);
    assert Child(node, 0) == Ok(node.children[0]);
    assert ParseChild(node, 0, ctx, rev) == Ok(obj);
  }

  /**
   * `f(args)` followed by whatever suffixes remain: as written the call is the result; corrected,
   * the remaining suffixes go on with the call as receiver.
   */
  lemma CallStep(node: Ast, ctx: Context, rev: Revision, obj: Node, args: seq<Node>)
    requires node.Inner? && node.description == "postfixUnaryExpression"
    requires |node.children| > 1 && Description(node.children[1]) == "valueArguments"
    requires ParseAst(node.children[0], ctx, rev) == Ok(obj)
    requires FirstNamed(node, "valueArguments") == Some(node.children[1])
    requires var items := NonTerminals(ChildrenOf(node.children[1]));
      |items| == |args| && forall i :: 0 <= i < |items| ==> ParseAst(items[i], ctx, rev) == Ok(args[i])
    ensures rev == AsWritten || |node.children| == 2 ==> ParseAst(node, ctx, rev) == Ok(Call(obj, args))
    ensures rev == Corrected && |node.children| > 2 ==> (ParseAst(node, ctx, rev) ==
      ParseAst(Inner(node.description, [Converted(Call(obj, args))] + node.children[2..], None),
        ctx.(topLevelVals := false, referencePrefix := None), rev))
  {
    var items := NonTerminals(ChildrenOf(node.children[1]));
    FoundBelow(node, node.children[1]);
    ParseListOk(items, AstSize(node), ctx, rev, args);
    DispatchCall(node, ctx, rev);
    assert Child(node, 0) == Ok(node.children[0]);
    assert ParseChild(node, 0, ctx, rev) == Ok(obj);
  }

  /**
   * A string literal that is not translated part by part is a constant: the text of its first
   * text segment, whatever segments follow.
   */
  lemma StringConstant(node: Ast, ctx: Context, rev: Revision, c: Ast)
    requires node.Inner? && node.description == "lineStringLiteral" && !IsTemplate(node, rev)
    requires FirstNamed(node, "literalConstant").None? && FirstNamed(node, "lineStringContent") == Some(c)
    ensures ParseAst(node, ctx, rev) == Ok(Value(StringValue(TextOf(c))))
  {
    FirstMatchesSelf(node, "lineStringLiteral");
  }

  /** Text segments read one by one. */
  function ContentNodes(segments: seq<Ast>, ctx: Context): (r: seq<Node>)
    ensures |r| == |segments|
  {
    seq(|segments|, i requires 0 <= i < |segments| => ContentNode(TextOf(segments[i]), ctx))
  }

  /** A string template made of text segments only: the segments read by `ContentNode`, in order. */
  lemma TextTemplate(node: Ast, ctx: Context, rev: Revision)
    requires node.Inner? && node.description == "lineStringLiteral" && IsTemplate(node, rev)
    requires forall x :: x in Segments(node.children) ==> Description(x) == "lineStringContent"
    ensures ParseAst(node, ctx, rev) == Ok(Concat(ContentNodes(Segments(node.children), ctx)))
  {
    var segments := Segments(node.children);
    assert forall i :: 0 <= i < |segments| ==> segments[i] in segments;
    ChildrenSmaller(node);
    var r := ParseSegments(segments, AstSize(node), ctx, rev);
    assert r.Ok? && r.value == ContentNodes(segments, ctx);
  }

  /** A list whose every item translates translates to the list of their translations. */
  lemma {:induction false} ParseListOk(items: seq<Ast>, bound: nat, ctx: Context, rev: Revision, ns: seq<Node>)
    requires forall x :: x in items ==> AstSize(x) < bound
    requires |ns| == |items| && forall i :: 0 <= i < |items| ==> ParseAst(items[i], ctx, rev) == Ok(ns[i])
    ensures ParseList(items, bound, ctx, rev) == Ok(ns)
    decreases |items|
  {
    if items != [] {
      ParseListOk(items[1..], bound, ctx, rev, ns[1..]);
      assert ns == [ns[0]] + ns[1..];
    }
  }

  /** A list without repetitions is its own set. */
  lemma {:induction false} DistinctOfDistinct(xs: seq<string>)
    requires forall i, j :: 0 <= i < j < |xs| ==> xs[i] != xs[j]
    ensures Distinct(xs) == xs
    decreases |xs|
  {
    if xs != [] {
      var init := xs[..|xs| - 1];
      DistinctOfDistinct(init);
      assert xs == init + [xs[|xs| - 1]];
    }
  }

  /** In a list without repetitions, an element's first position is its only one. */
  lemma IndexOfDistinct(xs: seq<string>, i: nat)
    requires i < |xs| && forall j, k :: 0 <= j < k < |xs| ==> xs[j] != xs[k]
    ensures IndexOf(xs, xs[i]) == i
  {
  }

  /** With distinct declared parameters, the i-th one is lambda argument i. */
  lemma ParameterPositions(tree: Ast, options: O.Options, i: nat)
    requires var ps := DeclaredParameters(tree); i < |ps| && forall j, k :: 0 <= j < k < |ps| ==> ps[j] != ps[k]
    ensures ResolveIdentifier(DeclaredParameters(tree)[i], EntryContext(tree, options)) == LambdaArgument(i)
  {
    var ps := DeclaredParameters(tree);
    DistinctOfDistinct(ps);
    assert ArgumentNames(tree) == ps;
    IndexOfDistinct(ps, i);
  }

  /** A lambda that declares parameters has no `it`: it reads as a top-level value like any other name. */
  lemma ItWhenParametersDeclared(tree: Ast, options: O.Options)
    requires DeclaredParameters(tree) != [] && "it" !in DeclaredParameters(tree) && "it" !in options.symbolTypes
    ensures ResolveIdentifier("it", EntryContext(tree, options)) == Val("it")
  {
    var ctx := EntryContext(tree, options);
    assert "it" !in ctx.argumentNames;
    O.DefaultTable();
    assert "it" !in O.DefaultSymbolTypes.Keys;
    assert "it" !in ctx.options.symbolTypes.Keys;
    assert SymbolOf("it", ctx) == None && ctx.topLevelVals;
  }

  /** No declared parameter: the one parameter is `it`, lambda argument 0. */
  lemma ImplicitIt(tree: Ast, options: O.Options)
    requires DeclaredParameters(tree) == []
    ensures ResolveIdentifier("it", EntryContext(tree, options)) == It
  {
  }

  /** The translation of a name node is the resolution of its text. */
  lemma SimpleIdentifierResolves(p: Ast, ctx: Context, rev: Revision)
    requires Description(p) == "simpleIdentifier"
    ensures ParseAst(p, ctx, rev) == Ok(ResolveIdentifier(TextOf(p), ctx))
  {
  }

  /** The plain-name kind of each possible resolution, in order of precedence. */
  lemma IdentifierLadder(name: string, ctx: Context)
    ensures var r := ResolveIdentifier(name, ctx);
      && (r.LambdaArgument? <==> name in ctx.argumentNames)
      && (r.LambdaArgument? ==> 0 <= r.number < |ctx.argumentNames| && ctx.argumentNames[r.number] == name
                                && name !in ctx.argumentNames[..r.number])
      && (r.Val? <==> name !in ctx.argumentNames && SymbolOf(name, ctx) != Some(O.Identifier) && ctx.topLevelVals)
      && (r.Val? ==> r.name == name)
      && (r.Ref? <==> name !in ctx.argumentNames && SymbolOf(name, ctx) != Some(O.Identifier)
                      && !ctx.topLevelVals && ctx.referencePrefix.Some?)
      && (r.Identifier? ==> r.name == name)
      && (r.LambdaArgument? || r.Val? || r.Ref? || r.Identifier?)
  {
  }

  /**
   * A name read as a reference under a plain receiver path splits back into that path and the
   * name: the reference's last segment is the name.
   */
  lemma ReferenceSplitsBack(name: string, ctx: Context)
    requires ':' !in name && ctx.referencePrefix.Some? && ':' !in ctx.referencePrefix.value
    requires ResolveIdentifier(name, ctx).Ref?
    ensures NameWithoutPrefix(ResolveIdentifier(name, ctx).reference) == name
    ensures Prefix(ResolveIdentifier(name, ctx).reference) == ctx.referencePrefix
  {
    QualifiedName(ctx.referencePrefix.value, name);
  }

  /** The call-name ladder: an upper-case name is a class first of all, then the symbol table decides. */
  lemma CallNameLadder(name: string, ctx: Context)
    requires |name| > 0
    ensures var r := ResolveCallName(name, ctx);
      && r.Ok?
      && (ctx.options.upperCaseIsClassName && IsUpperCase(name[0]) ==> r.value == Ref(name + "::class"))
      && (SymbolOf(name, ctx) == Some(O.Constructor) ==> r.value == Ref(name + "::class"))
      && (!(ctx.options.upperCaseIsClassName && IsUpperCase(name[0])) && SymbolOf(name, ctx) == Some(O.Identifier)
          ==> r.value == Identifier(name))
      && (SymbolOf(name, ctx) == None && !(ctx.options.upperCaseIsClassName && IsUpperCase(name[0])) ==>
            r.value == (if ctx.topLevelVals then Ref(Scope + name)
                        else if ctx.referencePrefix.Some? then Ref(ctx.referencePrefix.value + Scope + name)
                        else Identifier(name)))
  {
  }

  /**
   * In a lambda's top-level context with the default options, the collection builders stay
   * identifiers, `Pair` is a class and other lower-case names are top-level functions.
   */
  lemma DefaultCallNames(ctx: Context)
    requires ctx.options == O.WithDefaultSymbols(O.Default) && ctx.topLevelVals
    ensures ResolveCallName("listOf", ctx) == Ok(Identifier("listOf"))
    ensures ResolveCallName("Pair", ctx) == Ok(Ref("Pair::class"))
    ensures ResolveCallName("sin", ctx) == Ok(Ref("::sin"))
  {
    O.DefaultTable();
    assert ctx.options.symbolTypes == O.DefaultSymbolTypes;
    assert SymbolOf("listOf", ctx) == Some(O.Identifier);
    assert SymbolOf("sin", ctx) == None;
    assert !IsUpperCase("listOf"[0]) && !IsUpperCase("sin"[0]) && IsUpperCase("Pair"[0]);
    assert ResolveCallName("Pair", ctx) == Ok(Ref("Pair" + "::class"));
    assert "Pair" + "::class" == "Pair::class";
    assert ResolveCallName("sin", ctx) == Ok(Ref(Scope + "sin"));
    assert Scope + "sin" == "::sin";
  }

  /** The production each family of binary operators is written with. */
  function ProductionOf(f: Family): string
  {
    match f
    case Comparison => "comparison"
    case Equality => "equality"
    case Multiplicative => "multiplicativeExpression"
    case Additive => "additiveExpression"
  }

  /**
   * `x op y`: the operator token picks the operator node, and a token the family does not know
   * leaves the whole node unknown.
   */
  lemma SingleOperation(f: Family, l: Ast, o: Ast, rt: Ast, span: Option<Span>, ctx: Context, rev: Revision, x: Node, y: Node)
    requires ParseAst(l, ctx, rev) == Ok(x) && ParseAst(rt, ctx, rev) == Ok(y)
    requires OperatorToken(o, f).Some?
    ensures var node := Inner(ProductionOf(f), [l, o, rt], span);
      ParseAst(node, ctx, rev) == match OperatorOf(o, f)
        case Some(op) => Ok(Binary(op, x, y))
        case None => Ok(Unknown(node))
  {
    var node := Inner(ProductionOf(f), [l, o, rt], span);
    DispatchOperation(node, ctx, rev, f);
    assert Child(node, 1) == Ok(o);
    assert ParseChild(node, 0, ctx, rev) == Ok(x) by {
      assert Child(node, 0) == Ok(l);
    }
    assert ParseChild(node, 2, ctx, rev) == Ok(y) by {
      assert Child(node, 2) == Ok(rt);
    }
  }

  /** A missing operator token is a failed `!!`. */
  lemma MissingOperator(f: Family, cs: seq<Ast>, span: Option<Span>, ctx: Context, rev: Revision)
    requires |cs| > 1 && OperatorToken(cs[1], f).None?
    ensures ParseAst(Inner(ProductionOf(f), cs, span), ctx, rev) == Throw(None)
  {
    var node := Inner(ProductionOf(f), cs, span);
    DispatchOperation(node, ctx, rev, f);
    assert Child(node, 1) == Ok(cs[1]);
  }

  /** `x₀ op₁ x₁ … opₙ xₙ` read from left to right. */
  function FoldLeft(acc: Node, ops: seq<BinaryOp>, operands: seq<Node>): Node
    requires |ops| == |operands|
    decreases |ops|
  {
    if ops == [] then acc else FoldLeft(Binary(ops[0], acc, operands[0]), ops[1..], operands[1..])
  }

  /** `g` gives `vals[i]` at the odd places `2i + 1` of `cs`. */
  ghost predicate AtOddPlaces<T>(cs: seq<Ast>, g: Ast -> T, vals: seq<T>)
  {
    |cs| == 2 * |vals| + 1 && forall i :: 0 <= i < |vals| ==> g(cs[2 * i + 1]) == vals[i]
  }

  /** `g` gives `vals[i]` at the even places `2i + 2` of `cs`. */
  ghost predicate AtEvenPlaces<T>(cs: seq<Ast>, g: Ast -> T, vals: seq<T>)
  {
    |cs| == 2 * |vals| + 1 && forall i :: 0 <= i < |vals| ==> g(cs[2 * i + 2]) == vals[i]
  }

  /** The operator a node stands for in a family. */
  function OperatorIn(f: Family): Ast -> Option<BinaryOp>
  {
    a => OperatorOf(a, f)
  }

  /** The translation of a node in a context. */
  function TranslationIn(ctx: Context, rev: Revision): Ast -> Outcome<Node>
  {
    a => ParseAst(a, ctx, rev)
  }

  /** Each operator as a found one. */
  function Somes(ops: seq<BinaryOp>): (r: seq<Option<BinaryOp>>)
    ensures |r| == |ops| && forall i :: 0 <= i < |ops| ==> r[i] == Some(ops[i])
  {
    seq(|ops|, i requires 0 <= i < |ops| => Some(ops[i]))
  }

  /** Each node as a successful translation. */
  function Oks(ns: seq<Node>): (r: seq<Outcome<Node>>)
    ensures |r| == |ns| && forall i :: 0 <= i < |ns| ==> r[i] == Ok(ns[i])
  {
    seq(|ns|, i requires 0 <= i < |ns| => Ok(ns[i]))
  }

  /**
   * An additive or multiplicative chain `x₀ op₁ x₁ … opₙ xₙ` translates to the left-associative
   * fold of its operands: `((x₀ op₁ x₁) op₂ x₂) …`.
   */
  lemma {:induction false} ChainFoldsLeft(f: Family, cs: seq<Ast>, span: Option<Span>, ctx: Context, rev: Revision,
                                          acc: Node, ops: seq<BinaryOp>, operands: seq<Node>)
    requires Chains(f)
    requires |ops| >= 1
    requires AtOddPlaces(cs, OperatorIn(f), Somes(ops)) && AtEvenPlaces(cs, TranslationIn(ctx, rev), Oks(operands))
    requires ParseAst(cs[0], ctx, rev) == Ok(acc)
    ensures ParseAst(Inner(ProductionOf(f), cs, span), ctx, rev) == Ok(FoldLeft(acc, ops, operands))
    decreases |ops|
  {
    var first := Binary(ops[0], acc, operands[0]);
    PlacesFirst(cs, OperatorIn(f), Somes(ops), TranslationIn(ctx, rev), Oks(operands));
    var folded := FoldLeft(first, ops[1..], operands[1..]);
    assert FoldLeft(acc, ops, operands) == folded;
    if |ops| > 1 {
      ChainStep(f, cs, span, ctx, rev, acc, ops[0], operands[0]);
      var rest := [Converted(first)] + cs[3..];
      PlacesShift(cs, Converted(first), OperatorIn(f), Somes(ops), TranslationIn(ctx, rev), Oks(operands));
      assert Somes(ops)[1..] == Somes(ops[1..]);
      assert Oks(operands)[1..] == Oks(operands[1..]);
      ChainFoldsLeft(f, rest, None, ctx, rev, first, ops[1..], operands[1..]);
      assert ParseAst(Inner(ProductionOf(f), rest, None), ctx, rev) == Ok(folded);
    } else {
      ChainLast(f, cs, span, ctx, rev, acc, ops[0], operands[0]);
      assert folded == first;
    }
  }

  /** The first odd and the first even place. */
  lemma PlacesFirst<T, U>(cs: seq<Ast>, g: Ast -> T, vals: seq<T>, h: Ast -> U, wals: seq<U>)
    requires |vals| >= 1 && AtOddPlaces(cs, g, vals) && AtEvenPlaces(cs, h, wals)
    ensures g(cs[1]) == vals[0] && h(cs[2]) == wals[0]
  {
    var i := 0;
    assert g(cs[2 * i + 1]) == vals[i];
    assert h(cs[2 * i + 2]) == wals[i];
  }

  /** Replacing the first three places by one, the later places move two to the left. */
  lemma PlacesShift<T, U>(cs: seq<Ast>, first: Ast, g: Ast -> T, vals: seq<T>, h: Ast -> U, wals: seq<U>)
    requires |vals| >= 2 && AtOddPlaces(cs, g, vals) && AtEvenPlaces(cs, h, wals)
    ensures AtOddPlaces([first] + cs[3..], g, vals[1..]) && AtEvenPlaces([first] + cs[3..], h, wals[1..])
  {
    var rest := [first] + cs[3..];
    forall i | 0 <= i < |vals| - 1
      ensures g(rest[2 * i + 1]) == vals[1..][i] && h(rest[2 * i + 2]) == wals[1..][i]
    {
      assert rest[2 * i + 1] == cs[2 * (i + 1) + 1];
      assert rest[2 * i + 2] == cs[2 * (i + 1) + 2];
    }
  }

  /** The last step of a chain: its two remaining operands combine. */
  lemma ChainLast(f: Family, cs: seq<Ast>, span: Option<Span>, ctx: Context, rev: Revision,
                  acc: Node, op: BinaryOp, x: Node)
    requires Chains(f) && |cs| == 3
    requires ParseAst(cs[0], ctx, rev) == Ok(acc)
    requires OperatorOf(cs[1], f) == Some(op)
    requires ParseAst(cs[2], ctx, rev) == Ok(x)
    ensures ParseAst(Inner(ProductionOf(f), cs, span), ctx, rev) == Ok(Binary(op, acc, x))
  {
    var node := Inner(ProductionOf(f), cs, span);
    ChainPair(f, cs, span, ctx, rev, acc, op, x);
    DispatchOperation(node, ctx, rev, f);
    assert Child(node, 1) == Ok(cs[1]);
    assert ParseOperation(node, ctx, rev, f) == Ok(Binary(op, acc, x));
  }

  /** A step inside a chain: the first two operands combine and the rest go on from that pair. */
  lemma ChainStep(f: Family, cs: seq<Ast>, span: Option<Span>, ctx: Context, rev: Revision,
                  acc: Node, op: BinaryOp, x: Node)
    requires Chains(f) && |cs| > 3
    requires ParseAst(cs[0], ctx, rev) == Ok(acc)
    requires OperatorOf(cs[1], f) == Some(op)
    requires ParseAst(cs[2], ctx, rev) == Ok(x)
    ensures ParseAst(Inner(ProductionOf(f), cs, span), ctx, rev) ==
      ParseAst(Inner(ProductionOf(f), [Converted(Binary(op, acc, x))] + cs[3..], None), ctx, rev)
  {
    var node := Inner(ProductionOf(f), cs, span);
    ChainPair(f, cs, span, ctx, rev, acc, op, x);
    DispatchOperation(node, ctx, rev, f);
    assert Child(node, 1) == Ok(cs[1]);
    assert ParseOperation(node, ctx, rev, f) ==
      ParseAst(Inner(ProductionOf(f), [Converted(Binary(op, acc, x))] + cs[3..], None), ctx, rev);
  }

  /** The first two operands of a chain, combined by the first operator. */
  lemma ChainPair(f: Family, cs: seq<Ast>, span: Option<Span>, ctx: Context, rev: Revision,
                  acc: Node, op: BinaryOp, x: Node)
    requires |cs| >= 3
    requires ParseAst(cs[0], ctx, rev) == Ok(acc)
    requires ParseAst(cs[2], ctx, rev) == Ok(x)
    ensures ParsePair(Inner(ProductionOf(f), cs, span), ctx, rev, op) == Ok(Binary(op, acc, x))
  {
    var node := Inner(ProductionOf(f), cs, span);
    assert ParseChild(node, 0, ctx, rev) == Ok(acc) by {
      assert Child(node, 0) == Ok(cs[0]);
    }
    assert ParseChild(node, 2, ctx, rev) == Ok(x) by {
      assert Child(node, 2) == Ok(cs[2]);
    }
  }

  /** A member-access suffix `.name`. */
  predicate IsPropertySuffix(s: Ast, name: string)
  {
    Description(s) == "navigationSuffix"
    && FirstNamed(s, "simpleIdentifier").Some? && TextOf(FirstNamed(s, "simpleIdentifier").value) == name
  }

  /** A name that the translation reads as a property reference once top-level mode is off. */
  predicate IsPlainProperty(name: string, ctx: Context)
  {
    ':' !in name && name !in ctx.argumentNames && SymbolOf(name, ctx) != Some(O.Identifier)
  }

  /** `acc.n₁.n₂…` with each property a reference under the dotted path of the receivers before it. */
  function PathFold(acc: Node, path: string, names: seq<string>): Node
    decreases |names|
  {
    if names == [] then acc
    else PathFold(GetProperty(acc, Ref(path + Scope + names[0])), path + "." + names[0], names[1..])
  }

  /**
   * A chain of member accesses on an identified receiver, `a.b.c`, translates to nested property
   * accesses in which each property is a reference under the dotted path of the receivers before
   * it: `GetProperty(GetProperty(Val("a"), Ref("a::b")), Ref("a.b::c"))`.
   */
  lemma {:induction false} NavigationFolds(cs: seq<Ast>, span: Option<Span>, ctx: Context, rev: Revision,
                                           acc: Node, id: string, names: seq<string>)
    requires |names| >= 1 && |cs| == |names| + 1
    requires ParseAst(cs[0], ctx, rev) == Ok(acc)
    requires InternalIdentifierFrom(acc) == Some(id) && ':' !in ReferencePath(id)
    requires forall i :: 0 <= i < |names| ==> IsPropertySuffix(cs[i + 1], names[i]) && IsPlainProperty(names[i], ctx)
    ensures ParseAst(Inner("postfixUnaryExpression", cs, span), ctx, rev) == Ok(PathFold(acc, ReferencePath(id), names))
    decreases |names|
  {
    var path := ReferencePath(id);
    var n := names[0];
    assert IsPropertySuffix(cs[1], n) && IsPlainProperty(n, ctx);
    NavigationHead(cs, span, ctx, rev, acc, id, n);
    var first := GetProperty(acc, Ref(path + Scope + n));
    if |names| > 1 {
      var rest := [Converted(first)] + cs[2..];
      var nextCtx := ctx.(topLevelVals := false, referencePrefix := Some(path + "." + n));
      SuffixesShift(cs, names, ctx, first, nextCtx);
      assert ParseAst(rest[0], nextCtx, rev) == Ok(first);
      NavigationFolds(rest, None, nextCtx, rev, first, path + Scope + n, names[1..]);
    }
  }

  /** Once the first access is translated, the remaining suffixes are still plain property accesses. */
  lemma SuffixesShift(cs: seq<Ast>, names: seq<string>, ctx: Context, first: Node, nextCtx: Context)
    requires |names| > 1 && |cs| == |names| + 1
    requires nextCtx.argumentNames == ctx.argumentNames && nextCtx.options == ctx.options
    requires forall i :: 0 <= i < |names| ==> IsPropertySuffix(cs[i + 1], names[i]) && IsPlainProperty(names[i], ctx)
    ensures var rest := [Converted(first)] + cs[2..];
      forall i :: 0 <= i < |names| - 1 ==> IsPropertySuffix(rest[i + 1], names[1..][i]) && IsPlainProperty(names[1..][i], nextCtx)
  {
    var rest := [Converted(first)] + cs[2..];
    forall i | 0 <= i < |names| - 1
      ensures IsPropertySuffix(rest[i + 1], names[1..][i]) && IsPlainProperty(names[1..][i], nextCtx)
    {
      assert rest[i + 1] == cs[i + 2];
      assert IsPlainProperty(names[i + 1], ctx);
    }
  }

  /** The first member access of such a chain, and what is left to translate after it. */
  lemma NavigationHead(cs: seq<Ast>, span: Option<Span>, ctx: Context, rev: Revision, acc: Node, id: string, n: string)
    requires |cs| >= 2
    requires ParseAst(cs[0], ctx, rev) == Ok(acc)
    requires InternalIdentifierFrom(acc) == Some(id) && ':' !in ReferencePath(id)
    requires IsPropertySuffix(cs[1], n) && IsPlainProperty(n, ctx)
    ensures var path := ReferencePath(id);
      var first := GetProperty(acc, Ref(path + Scope + n));
      && InternalIdentifierFrom(first) == Some(path + Scope + n)
      && ReferencePath(path + Scope + n) == path + "." + n
      && ParseAst(Inner("postfixUnaryExpression", cs, span), ctx, rev) ==
        if |cs| == 2 then Ok(first)
        else ParseAst(Inner("postfixUnaryExpression", [Converted(first)] + cs[2..], None),
          ctx.(topLevelVals := false, referencePrefix := Some(path + "." + n)), rev)
  {
    var node := Inner("postfixUnaryExpression", cs, span);
    var path := ReferencePath(id);
    var propCtx := ctx.(topLevelVals := false, referencePrefix := Some(path));
    var p := FirstNamed(cs[1], "simpleIdentifier").value;
    SimpleIdentifierResolves(p, propCtx, rev);
    var prop := Ref(path + Scope + n);
    assert ParseAst(p, propCtx, rev) == Ok(prop);
    var first := GetProperty(acc, prop);
    QualifiedName(path, n);
    GetPropertyIdentifier(acc, prop, path, n);
    DispatchNavigation(node, ctx, rev);
    assert ParseChild(node, 0, ctx, rev) == Ok(acc) by {
      assert Child(node, 0) == Ok(cs[0]);
    }
    if |cs| > 2 {
      var rest := [Converted(first)] + cs[2..];
      var nextCtx := ctx.(topLevelVals := false, referencePrefix := ChainPath(Some(id), prop));
      assert nextCtx == ctx.(topLevelVals := false, referencePrefix := Some(path + "." + n));
      assert ParseNavigation(node, ctx, rev) == ParseAst(Inner("postfixUnaryExpression", rest, None), nextCtx, rev);
    } else {
      assert ParseNavigation(node, ctx, rev) == Ok(first);
    }
  }

  /** `it.b`: a lambda argument identifies nothing, so its property stays a plain identifier. */
  lemma ArgumentReceiver(cs: seq<Ast>, span: Option<Span>, ctx: Context, rev: Revision, k: int, name: string)
    requires |cs| == 2 && ParseAst(cs[0], ctx, rev) == Ok(LambdaArgument(k))
    requires IsPropertySuffix(cs[1], name) && IsPlainProperty(name, ctx) && ctx.referencePrefix.None?
    ensures ParseAst(Inner("postfixUnaryExpression", cs, span), ctx, rev) == Ok(GetProperty(LambdaArgument(k), Identifier(name)))
  {
    var node := Inner("postfixUnaryExpression", cs, span);
    var p := FirstNamed(cs[1], "simpleIdentifier").value;
    SimpleIdentifierResolves(p, ctx.(topLevelVals := false), rev);
    DispatchNavigation(node, ctx, rev);
    assert ParseChild(node, 0, ctx, rev) == Ok(LambdaArgument(k)) by {
      assert Child(node, 0) == Ok(cs[0]);
    }
  }

  /** `x name y` is the call of `name` on both sides. */
  lemma InfixIsCall(l: Ast, name: Ast, rt: Ast, span: Option<Span>, ctx: Context, rev: Revision, x: Node, y: Node)
    requires ParseAst(l, ctx, rev) == Ok(x) && ParseAst(rt, ctx, rev) == Ok(y)
    ensures ParseAst(Inner("infixOperation", [l, name, rt], span), ctx, rev) == Ok(Call(Identifier(TextOf(name)), [x, y]))
  {
    var node := Inner("infixOperation", [l, name, rt], span);
    DispatchInfix(node, ctx, rev);
    assert Child(node, 1) == Ok(name);
    assert ParseChild(node, 0, ctx, rev) == Ok(x) by {
      assert Child(node, 0) == Ok(l);
    }
    assert ParseChild(node, 2, ctx, rev) == Ok(y) by {
      assert Child(node, 2) == Ok(rt);
    }
  }

  /** A production the translation has no rule for stays unknown. */
  lemma UnknownProduction(node: Ast, ctx: Context, rev: Revision)
    requires !node.Converted?
    requires Description(node) !in {"lineStringLiteral", "literalConstant", "disjunction", "conjunction",
      "comparison", "equality", "postfixUnaryExpression", "multiplicativeExpression", "additiveExpression",
      "simpleIdentifier", "infixOperation", "genericCallLikeComparison"}
    ensures ParseAst(node, ctx, rev) == Ok(Unknown(node))
  {
  }
}
