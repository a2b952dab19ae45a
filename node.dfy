/**
 * The expression-tree model (`Node` and its variants), its code emitter (`toCode`, together with
 * the value serializer `Any?.toCode()`), and the qualified-name helpers of `InternalIdentifiedNode`.
 *
 * The parser's syntax tree `Ast` lives here too: an `Unknown` node holds the syntax tree it could
 * not translate, and the converter's synthetic `AlreadyConvertedASTNode` holds a `Node`, so the two
 * types are mutually recursive.
 */
module Nodes {
  import opened Wrappers
  import opened Text

  // ---------------------------------------------------------------------------
  // Syntax trees (the external parser's output, as the core sees it)
  // ---------------------------------------------------------------------------

  /** A token's channel: the default one, or a hidden one (whitespace, comments). */
  datatype Channel = DefaultChannel | HiddenChannel

  /** Start and stop character offsets of a syntax node in the parsed text. */
  datatype Span = Span(start: nat, stop: nat)

  /**
   * A syntax tree: a token (`kind` is the lexer rule name, e.g. "IntegerLiteral"), an inner node
   * named after its grammar production, or a node the converter has already translated.
   */
  datatype Ast =
    | Terminal(kind: string, text: string, channel: Channel)
    | Inner(description: string, children: seq<Ast>, span: Option<Span>)
    | Converted(node: Node)

  /** The `description` every syntax node answers to. */
  function Description(a: Ast): string
  {
    match a
    case Terminal(kind, _, _) => kind
    case Inner(d, _, _) => d
    case Converted(_) => "Already Converted"
  }

  /** Children as the selector library sees them: only inner nodes have any. */
  function ChildrenOf(a: Ast): (r: seq<Ast>)
    ensures a.Inner? ==> r == a.children
    ensures !a.Inner? ==> r == []
  {
    if a.Inner? then a.children else []
  }

  // ---------------------------------------------------------------------------
  // Values carried by `Value` nodes
  // ---------------------------------------------------------------------------

  /**
   * The values a `Value` node can hold: the decoded literals (Int, Long, Boolean, null,
   * String, and floating-point numbers kept opaque as their text) and, through the
   * `SerializableToCode` case of the value serializer, a node.
   */
  datatype Literal =
    | Null
    | IntValue(i: int)
    | LongValue(l: int)
    | BoolValue(b: bool)
    | StringValue(s: string)
    | FloatValue(text: string)
    | NodeValue(n: Node)

  // ---------------------------------------------------------------------------
  // Nodes
  // ---------------------------------------------------------------------------

  datatype UnaryOp = UnaryMinus | UnaryPlus | UnaryBang

  datatype BinaryOp =
    | Plus | Minus | Multiply | Divide
    | And | Or
    | Equal | NotEqual | Less | Greater | LessOrEqual | GreaterOrEqual

  /**
   * The closed set of expression-tree variants. `Ref` keeps only its reference string (the
   * `PseudoCallable` form); `Val` keeps only its name (its runtime value is attached later).
   */
  datatype Node =
    | Identifier(name: string)
    | Value(value: Literal)
    | Val(name: string)
    | Ref(reference: string)
    | LambdaArgument(number: int)
    | Unary(uop: UnaryOp, child: Node)
    | Binary(op: BinaryOp, left: Node, right: Node)
    | GetProperty(obj: Node, prop: Node)
    | Call(callee: Node, args: seq<Node>)
    | Concat(parts: seq<Node>)
    | Error(errorMessage: string)
    | Unknown(unknown: Ast)

  /** `It`: the implicit first lambda argument. */
  const It: Node := LambdaArgument(0)

  /** The variants built on `WithChildren`. */
  predicate IsWithChildren(n: Node)
  {
    n.Unary? || n.Binary? || n.GetProperty? || n.Call? || n.Concat?
  }

  /** The child list of a `WithChildren` node; a call's children are its method, then its arguments. */
  function Children(n: Node): (r: seq<Node>)
    ensures !IsWithChildren(n) ==> r == []
    ensures n.Unary? ==> r == [n.child]
    ensures (n.Binary? || n.GetProperty?) ==> |r| == 2
  {
    match n
    case Unary(_, c) => [c]
    case Binary(_, l, r) => [l, r]
    case GetProperty(o, p) => [o, p]
    case Call(m, args) => [m] + args
    case Concat(parts) => parts
    case _ => []
  }

  function UnaryName(op: UnaryOp): string
  {
    match op
    case UnaryMinus => "UnaryMinus"
    case UnaryPlus => "UnaryPlus"
    case UnaryBang => "UnaryBang"
  }

  function BinaryName(op: BinaryOp): string
  {
    match op
    case Plus => "Plus"
    case Minus => "Minus"
    case Multiply => "Multiply"
    case Divide => "Divide"
    case And => "And"
    case Or => "Or"
    case Equal => "Equal"
    case NotEqual => "NotEqual"
    case Less => "Less"
    case Greater => "Greater"
    case LessOrEqual => "LessOrEqual"
    case GreaterOrEqual => "GreaterOrEqual"
  }

  /** The Kotlin class name (`this::class.simpleName`) of a `WithChildren` node. */
  function ClassName(n: Node): string
    requires IsWithChildren(n)
  {
    match n
    case Unary(op, _) => UnaryName(op)
    case Binary(op, _, _) => BinaryName(op)
    case GetProperty(_, _) => "GetProperty"
    case Call(_, _) => "Call"
    case Concat(_) => "Concat"
  }

  /**
   * Equality of `WithChildren` nodes: same concrete class and equal child lists. So
   * `Plus(a, b) != Minus(a, b)`, and nodes of one class with the same children are equal.
   */
  lemma {:induction false} WithChildrenEquality(a: Node, b: Node)
    requires IsWithChildren(a) && IsWithChildren(b)
    ensures a == b <==> (ClassName(a) == ClassName(b) && Children(a) == Children(b))
  {
    if ClassName(a) == ClassName(b) && Children(a) == Children(b) {
      match a
      case Unary(op, c) =>
        assert b.Unary? && UnaryName(b.uop) == UnaryName(op);
      case Binary(op, _, _) =>
        assert b.Binary? && BinaryName(b.op) == BinaryName(op);
      case GetProperty(_, _) =>
      case Call(m, args) =>
        assert b.Call? && Children(b)[0] == m;
        assert b.args == Children(b)[1..] == Children(a)[1..] == args;
      case Concat(_) =>
    }
  }

  // ---------------------------------------------------------------------------
  // Code emission
  // ---------------------------------------------------------------------------

  /** Three double quotes: Kotlin raw-string delimiters, so string values need no escaping. */
  const QQQ: string := "\"\"\""

  /** `Any?.toCode()` for a value held by a `Value` node. */
  function LiteralToCode(v: Literal): string
    decreases v, 1
  {
    match v
    case Null => "null"
    case NodeValue(n) => ToCode(n)
    case StringValue(s) => QQQ + s + QQQ
    case IntValue(i) => IntToString(i)
    case LongValue(l) => IntToString(l)
    case BoolValue(b) => if b then "true" else "false"
    case FloatValue(text) => text
  }

  /** `Node.toCode()`: Kotlin source text that rebuilds the node. */
  function ToCode(n: Node): string
    decreases n, 0
  {
    match n
    case Identifier(name) => "Identifier(\"" + name + "\")"
    case Value(v) => "Value(" + LiteralToCode(v) + ")"
    case Val(name) => "Val(\"" + name + "\", " + name + ")"
    case Ref(reference) => "Ref(" + reference + ")"
    case LambdaArgument(k) => "LambdaArgument(" + IntToString(k) + ")"
    case Error(m) => "error(" + QQQ + m + QQQ + ")"
    case Unknown(a) => "Unknown(" + Description(a) + ")"
    case Unary(op, c) => UnaryName(op) + "(" + ToCode(c) + ")"
    case Binary(op, l, r) => BinaryName(op) + "(" + ToCode(l) + "," + ToCode(r) + ")"
    case GetProperty(o, p) => "GetProperty(" + ToCode(o) + "," + ToCode(p) + ")"
    case Call(m, args) =>
      "Call(" + Join([ToCode(m)] + Codes(args), ",") + ")"
    case Concat(parts) =>
      "Concat(" + Join(Codes(parts), ",") + ")"
  }

  /** The codes of a list of nodes, in order. */
  function Codes(ns: seq<Node>): (r: seq<string>)
    decreases ns, 2
    ensures |r| == |ns|
    ensures forall i :: 0 <= i < |ns| ==> r[i] == ToCode(ns[i])
  {
    seq(|ns|, i requires 0 <= i < |ns| => ToCode(ns[i]))
  }

  /**
   * Every `WithChildren` node is emitted the same way: its class name, then its children's codes
   * joined by "," with no spaces, in parentheses.
   */
  lemma WithChildrenCode(n: Node)
    requires IsWithChildren(n)
    ensures ToCode(n) == ClassName(n) + "(" + Join(Codes(Children(n)), ",") + ")"
  {
    if n.Unary? {
      UnaryCode(n);
    } else if n.Binary? {
      BinaryCode(n);
    } else if n.GetProperty? {
      PropertyCode(n);
    } else if n.Call? {
      CallCode(n);
    }
  }

  lemma UnaryCode(n: Node)
    requires n.Unary?
    ensures ToCode(n) == ClassName(n) + "(" + Join(Codes(Children(n)), ",") + ")"
  {
    assert Codes([n.child]) == [ToCode(n.child)];
  }

  lemma BinaryCode(n: Node)
    requires n.Binary?
    ensures ToCode(n) == ClassName(n) + "(" + Join(Codes(Children(n)), ",") + ")"
  {
    PairCodes(n.left, n.right);
  }

  lemma PropertyCode(n: Node)
    requires n.GetProperty?
    ensures ToCode(n) == ClassName(n) + "(" + Join(Codes(Children(n)), ",") + ")"
  {
    PairCodes(n.obj, n.prop);
  }

  lemma CallCode(n: Node)
    requires n.Call?
    ensures ToCode(n) == ClassName(n) + "(" + Join(Codes(Children(n)), ",") + ")"
  {
    assert Codes([n.callee] + n.args) == [ToCode(n.callee)] + Codes(n.args);
  }

  /**
   * Leaf codes as the tests expect them: an integer value prints bare, a nested node value prints
   * its own code, a string value is wrapped in raw-string quotes, null prints as `null`, and an
   * error message is wrapped in raw-string quotes inside `error(...)`.
   */
  lemma ValueCodes()
    ensures ToCode(Value(IntValue(5))) == "Value(5)"
    ensures ToCode(Value(NodeValue(Value(IntValue(5))))) == "Value(Value(5))"
    ensures ToCode(Value(StringValue("Bratsy"))) == "Value(" + QQQ + "Bratsy" + QQQ + ")"
    ensures ToCode(Value(Null)) == "Value(null)"
    ensures ToCode(Error("Lambda is empty")) == "error(" + QQQ + "Lambda is empty" + QQQ + ")"
  {
    assert IntToString(5) == "5" by {
      assert NatToString(5) == [DigitChar(5)];
    }
  }

  /** Two children's codes joined by ",". */
  lemma PairCodes(a: Node, b: Node)
    ensures Join(Codes([a, b]), ",") == ToCode(a) + "," + ToCode(b)
  {
    var cs := Codes([a, b]);
    assert cs == [ToCode(a), ToCode(b)];
    assert cs[1..] == [ToCode(b)];
  }

  // ---------------------------------------------------------------------------
  // Internal identifiers: qualified names split on "::"
  // ---------------------------------------------------------------------------

  const Scope: string := "::"

  /** `nameWithoutPrefix`: the last "::"-separated segment. */
  function NameWithoutPrefix(name: string): string
  {
    var segments := Split(name, Scope);
    segments[|segments| - 1]
  }

  /** `prefix`: the first segment, when the name has more than one. */
  function Prefix(name: string): Option<string>
  {
    var segments := Split(name, Scope);
    if |segments| > 1 then Some(segments[0]) else None
  }

  /** `insertablePrefix`: the prefix followed by a dot, or nothing. */
  function InsertablePrefix(name: string): string
  {
    match Prefix(name)
    case Some(p) => p + "."
    case None => ""
  }

  /** The dotted reference path an identified receiver hands on to its properties. */
  function ReferencePath(name: string): string
  {
    InsertablePrefix(name) + NameWithoutPrefix(name)
  }

  /**
   * `getInternalIdentifierFrom`, as the identifier's name: a `Val` or `Ref` identifies itself;
   * a `GetProperty` is identified when both its sides are; everything else is not.
   */
  function InternalIdentifierFrom(n: Node): (r: Option<string>)
    ensures n.Val? ==> r == Some(n.name)
    ensures n.Ref? ==> r == Some(n.reference)
    ensures !(n.Val? || n.Ref? || n.GetProperty?) ==> r == None
    ensures n.GetProperty? ==>
      (r.Some? <==> InternalIdentifierFrom(n.obj).Some? && InternalIdentifierFrom(n.prop).Some?)
  {
    match n
    case Val(name) => Some(name)
    case Ref(reference) => Some(reference)
    case GetProperty(o, p) =>
      (match (InternalIdentifierFrom(o), InternalIdentifierFrom(p))
       case (Some(objName), Some(propName)) =>
         Some(ReferencePath(objName) + Scope + NameWithoutPrefix(propName))
       case _ => None)
    case _ => None
  }

  /** A plain name (no ':' in it) is its own last segment and has no prefix. */
  lemma PlainName(name: string)
    requires ':' !in name
    ensures NameWithoutPrefix(name) == name && Prefix(name) == None
    ensures ReferencePath(name) == name
  {
    SplitWhole(name, Scope);
  }

  /** `path::name` with both parts plain splits back into them; its reference path is `path.name`. */
  lemma QualifiedName(path: string, name: string)
    requires ':' !in path && ':' !in name
    ensures NameWithoutPrefix(path + Scope + name) == name
    ensures Prefix(path + Scope + name) == Some(path)
    ensures ReferencePath(path + Scope + name) == path + "." + name
  {
    SplitAtFirst(path, Scope, name);
    SplitWhole(name, Scope);
  }

  /**
   * A property access on an identified receiver whose reference path is `path` (plain) to an
   * identified property whose own name is `name` (plain) is identified as `path::name`, and
   * hands `path.name` on to the next property in the chain.
   */
  lemma GetPropertyIdentifier(o: Node, p: Node, path: string, name: string)
    requires InternalIdentifierFrom(o).Some? && ReferencePath(InternalIdentifierFrom(o).value) == path
    requires InternalIdentifierFrom(p).Some? && NameWithoutPrefix(InternalIdentifierFrom(p).value) == name
    requires ':' !in path && ':' !in name
    ensures InternalIdentifierFrom(GetProperty(o, p)) == Some(path + Scope + name)
    ensures ReferencePath(path + Scope + name) == path + "." + name
  {
    QualifiedName(path, name);
  }
}
