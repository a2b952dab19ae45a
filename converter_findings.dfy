/**
 * Three lambdas the repository's translation gets wrong, each set against the corrected
 * translation. The syntax trees are written as the parser produces them after `collapse`.
 */
module ConverterFindings {
  import opened Wrappers
  import opened Nodes
  import opened Selectors
  import opened Collapse
  import opened Lookups
  import opened NodeConverter
  import O = ConverterOptions

  function Token(kind: string, text: string): Ast
  {
    Terminal(kind, text, DefaultChannel)
  }

  /** A syntax node holding a single token. */
  function Leaf(description: string, kind: string, text: string): Ast
  {
    Inner(description, [Token(kind, text)], None)
  }

  /** The context a lambda without declared parameters is translated in. */
  function ItContext(): Context
  {
    Context(None, true, ["it"], O.WithDefaultSymbols(O.Default))
  }

  // ---------------------------------------------------------------------------
  // An empty string literal
  // ---------------------------------------------------------------------------

  /** `""`: the quotes and nothing between them. */
  const EmptyString: Ast :=
    Inner("lineStringLiteral", [Token("QUOTE_OPEN", "\""), Token("QUOTE_CLOSE", "\"")], None)

  /** An empty string literal fails the `!!` on its missing text segment, in either revision. */
  lemma EmptyStringFails(ctx: Context, rev: Revision)
    ensures ParseAst(EmptyString, ctx, rev) == Throw(None)
  {
    var lit := EmptyString;
    assert SelfAndDescendants(lit) == [lit, lit.children[0], lit.children[1]];
    assert Keep(SelfAndDescendants(lit), Named("lineStringExpression")) == [];
    assert Segments(ChildrenOf(lit)) == [];
    assert Keep(SelfAndDescendants(lit), Named("literalConstant")) == [];
    FirstMatchesSelf(lit, "lineStringLiteral");
    assert Keep(SelfAndDescendants(lit), Named("lineStringContent")) == [];
  }

  /**
   * `{ it.name == "" }` and every other lambda with an empty string literal: as written the
   * handler's own `!!` on the missing message fails and the failure escapes `convert`; corrected,
   * the lambda becomes an `Error` node.
   */
  lemma EmptyStringEscapes(tree: Ast, options: O.Options)
    requires |Statements(tree)| == 1
    requires Collapse.Collapse(Statements(tree)[0]) == Some(EmptyString)
    ensures Convert(tree, options, AsWritten) == Throw(None)
    ensures ConvertCorrected(tree, options) == Error(NullPointerName)
  {
    EmptyStringFails(EntryContext(tree, options), AsWritten);
    EmptyStringFails(EntryContext(tree, options), Corrected);
  }

  /** `{ "" }` as parsed: a lambda whose one statement is the empty string literal. */
  const EmptyStringLambda: Ast :=
    Inner("lambdaLiteral", [
      Token("LCURL", "{"),
      Inner("statements", [Inner("statement", [EmptyString], None)], None),
      Token("RCURL", "}")], None)

  /** The nodes of `{ "" }` in document order. */
  lemma EmptyStringLambdaNodes(tree: Ast)
    requires tree == EmptyStringLambda
    ensures var cs := tree.children; var statement := cs[1].children[0];
      SelfAndDescendants(tree) ==
        [tree, cs[0], cs[1], statement, EmptyString, EmptyString.children[0], EmptyString.children[1], cs[2]]
  {
    var cs := tree.children;
    var statement := cs[1].children[0];
    assert SelfAndDescendants(EmptyString) == [EmptyString, EmptyString.children[0], EmptyString.children[1]];
    DescendantsOfOne(EmptyString);
    DescendantsOfOne(statement);
    DescendantsOfCons(cs[0], cs[1..]);
    DescendantsOfCons(cs[1], cs[2..]);
    DescendantsOfOne(cs[2]);
  }

  /** Only one node of `{ "" }` is a statement: the fourth in document order. */
  lemma EmptyStringLambdaNames(tree: Ast)
    requires tree == EmptyStringLambda
    ensures var all := SelfAndDescendants(tree);
      && |all| == 8 && Description(all[3]) == "statement" && all[3] == tree.children[1].children[0]
      && (forall x :: x in all[..3] ==> Description(x) != "statement")
      && (forall x :: x in all[4..] ==> Description(x) != "statement")
  {
    EmptyStringLambdaNodes(tree);
  }

  /** `{ "" }` holds one statement. */
  lemma EmptyStringLambdaStatement(tree: Ast)
    requires tree == EmptyStringLambda
    ensures Statements(tree) == [tree.children[1].children[0]]
  {
    var all := SelfAndDescendants(tree);
    EmptyStringLambdaNames(tree);
    KeepFrom(all, Named("statement"), 3);
    KeepNone(all[4..], Named("statement"));
  }

  /** The statement collapses to the literal it holds. */
  lemma EmptyStringStatement(statement: Ast)
    requires statement == Inner("statement", [EmptyString], None)
    ensures Collapse.Collapse(statement) == Some(EmptyString)
  {
    assert CollapseAll(EmptyString.children) == EmptyString.children;
  }

  /** The lambda `{ "" }` meets the conditions above. */
  lemma EmptyStringLambdaEscapes(tree: Ast)
    requires tree == EmptyStringLambda
    ensures Convert(tree, O.Default, AsWritten) == Throw(None)
    ensures ConvertCorrected(tree, O.Default) == Error(NullPointerName)
  {
    EmptyStringLambdaStatement(tree);
    EmptyStringStatement(tree.children[1].children[0]);
    EmptyStringEscapes(tree, O.Default);
  }

  // ---------------------------------------------------------------------------
  // A string with a `$name` reference
  // ---------------------------------------------------------------------------

  /** `"Hello $it"`: a text segment and a reference segment. */
  const HelloIt: Ast :=
    Inner("lineStringLiteral", [
      Token("QUOTE_OPEN", "\""),
      Leaf("lineStringContent", "LineStrText", "Hello "),
      Leaf("lineStringContent", "LineStrRef", "$it"),
      Token("QUOTE_CLOSE", "\"")], None)

  /** The nodes of `"Hello $it"` in document order. */
  lemma HelloItNodes()
    ensures var cs := HelloIt.children;
      SelfAndDescendants(HelloIt) ==
        [HelloIt, cs[0], cs[1], cs[1].children[0], cs[2], cs[2].children[0], cs[3]]
  {
    QuotedTwoTokens(HelloIt);
  }

  /** The nodes of a literal made of a quote, two single-token segments and a quote. */
  lemma QuotedTwoTokens(a: Ast)
    requires a.Inner? && |a.children| == 4 && a.children[0].Terminal? && a.children[3].Terminal?
    requires forall k :: 1 <= k <= 2 ==>
      a.children[k].Inner? && |a.children[k].children| == 1 && a.children[k].children[0].Terminal?
    ensures var cs := a.children;
      SelfAndDescendants(a) == [a, cs[0], cs[1], cs[1].children[0], cs[2], cs[2].children[0], cs[3]]
  {
    var cs := a.children;
    TokenNode(cs[1]);
    TokenNode(cs[2]);
    assert cs == [cs[0]] + ([cs[1]] + ([cs[2]] + [cs[3]]));
    DescendantsOfCons(cs[0], [cs[1]] + ([cs[2]] + [cs[3]]));
    DescendantsOfCons(cs[1], [cs[2]] + [cs[3]]);
    DescendantsOfCons(cs[2], [cs[3]]);
    DescendantsOfOne(cs[3]);
    SelfAndDescendantsToken(cs[0]);
    SelfAndDescendantsToken(cs[3]);
  }

  lemma SelfAndDescendantsToken(t: Ast)
    requires t.Terminal?
    ensures SelfAndDescendants(t) == [t]
  {
  }

  /** No node of `"Hello $it"` is a `${...}` segment or a literal constant. */
  lemma HelloItNames(lit: Ast)
    requires lit == HelloIt
    ensures forall x :: x in SelfAndDescendants(lit) ==>
      Description(x) != "lineStringExpression" && Description(x) != "literalConstant"
  {
    HelloItNodes();
  }

  /** `"Hello $it"` holds no `${...}` segment and no literal constant. */
  lemma HelloItHasNoExpression(lit: Ast)
    requires lit == HelloIt
    ensures FirstNamed(lit, "lineStringExpression") == None
    ensures FirstNamed(lit, "literalConstant") == None
  {
    HelloItNames(lit);
    FirstNamedNone(lit, "lineStringExpression");
    FirstNamedNone(lit, "literalConstant");
  }

  /** The first text segment of `"Hello $it"` is `Hello `. */
  lemma HelloItFirstContent(lit: Ast)
    requires lit == HelloIt
    ensures FirstNamed(lit, "lineStringContent") == Some(lit.children[1])
    ensures TextOf(lit.children[1]) == "Hello "
  {
    HelloItNodes();
    FirstNamedAt(lit, "lineStringContent", 2);
    TokenNode(lit.children[1]);
  }

  /** The segments of `"Hello $it"`: the text, then the reference. */
  lemma HelloItSegments(lit: Ast)
    requires lit == HelloIt
    ensures Segments(lit.children) == [lit.children[1], lit.children[2]]
    ensures TextOf(lit.children[1]) == "Hello " && TextOf(lit.children[2]) == "$it"
  {
    var cs := lit.children;
    TokenNode(cs[1]);
    TokenNode(cs[2]);
    assert !IsSegment(cs[0]) && IsSegment(cs[1]) && IsSegment(cs[2]) && !IsSegment(cs[3]);
    SegmentsOfFour(cs);
  }

  /** The segments among four children: those that are segments, in order. */
  lemma SegmentsOfFour(cs: seq<Ast>)
    requires |cs| == 4 && !IsSegment(cs[0]) && IsSegment(cs[1]) && IsSegment(cs[2]) && !IsSegment(cs[3])
    ensures Segments(cs) == [cs[1], cs[2]]
  {
    assert cs[1..][1..] == cs[2..] && cs[2..][1..] == cs[3..] && cs[3..][1..] == [];
    assert Segments(cs[3..]) == [];
    assert Segments(cs[2..]) == [cs[2]];
    assert Segments(cs[1..]) == [cs[1], cs[2]];
  }

  /** As written, `"Hello $it"` is the constant `Hello `. */
  lemma HelloItAsWritten(lit: Ast, ctx: Context)
    requires lit == HelloIt
    ensures ParseAst(lit, ctx, AsWritten) == Ok(Value(StringValue("Hello ")))
  {
    HelloItHasNoExpression(lit);
    HelloItFirstContent(lit);
    StringConstant(lit, ctx, AsWritten, lit.children[1]);
  }

  /** Corrected, `"Hello $it"` is translated segment by segment. */
  lemma HelloItCorrected(lit: Ast, ctx: Context)
    requires lit == HelloIt
    ensures ParseAst(lit, ctx, Corrected) == Ok(Concat([ContentNode("Hello ", ctx), ContentNode("$it", ctx)]))
  {
    assert ParseAst(lit, ctx, Corrected) == Ok(Concat(ContentNodes(Segments(lit.children), ctx))) by {
      HelloItIsTemplate(lit);
      TextTemplate(lit, ctx, Corrected);
    }
    assert ContentNodes(Segments(lit.children), ctx) == [ContentNode("Hello ", ctx), ContentNode("$it", ctx)] by {
      HelloItSegments(lit);
    }
  }

  /** Corrected, `"Hello $it"` is a template of text segments, its `$it` being a reference. */
  lemma HelloItIsTemplate(lit: Ast)
    requires lit == HelloIt
    ensures IsTemplate(lit, Corrected)
    ensures forall x :: x in Segments(lit.children) ==> Description(x) == "lineStringContent"
  {
    HelloItSegments(lit);
    var segments := Segments(lit.children);
    assert IsReference(segments[1]);
    assert segments[1] in segments;
  }

  /** With `it` as the only parameter, `$it` is the lambda argument and `Hello ` is text. */
  lemma HelloItContents(ctx: Context)
    requires ctx == ItContext()
    ensures ContentNode("Hello ", ctx) == Value(StringValue("Hello "))
    ensures ContentNode("$it", ctx) == It
  {
    assert "Hello "[0] != '$';
    assert "$it"[..1] == "$";
    assert "$it"[1..] == "it";
  }

  /**
   * As written `"Hello $it"` is read as a constant and keeps only its first segment; corrected,
   * it is the concatenation of the text and the lambda argument.
   */
  lemma TemplateReferenceDropped(lit: Ast, ctx: Context)
    requires lit == HelloIt && ctx == ItContext()
    ensures ParseAst(lit, ctx, AsWritten) == Ok(Value(StringValue("Hello ")))
    ensures ParseAst(lit, ctx, Corrected) == Ok(Concat([Value(StringValue("Hello ")), It]))
  {
    HelloItAsWritten(lit, ctx);
    HelloItCorrected(lit, ctx);
    HelloItContents(ctx);
  }

  /**
   * Corrected, a string literal with a reference segment is translated part by part: one part
   * per segment, each text segment read as a parameter reference or as text.
   */
  lemma ReferenceTemplateKeepsSegments(node: Ast, ctx: Context, s: Ast)
    requires node.Inner? && node.description == "lineStringLiteral"
    requires s in Segments(node.children) && IsReference(s)
    ensures ParseAst(node, ctx, Corrected) == ParseTemplate(node, ctx, Corrected)
    ensures (forall x :: x in Segments(node.children) ==> Description(x) == "lineStringContent") ==>
      ParseAst(node, ctx, Corrected).Ok?
  {
  }

  // ---------------------------------------------------------------------------
  // A member access after a call
  // ---------------------------------------------------------------------------

  /** `.name` */
  function PropertySuffix(name: string): Ast
  {
    Inner("navigationSuffix", [
      Leaf("memberAccessOperator", "DOT", "."),
      Leaf("simpleIdentifier", "Identifier", name)], None)
  }

  /** `()` */
  const NoArguments: Ast := Inner("valueArguments", [Token("LPAREN", "("), Token("RPAREN", ")")], None)

  /** `it.f().g` */
  const CallThenProperty: Ast :=
    Inner("postfixUnaryExpression", [
      Leaf("simpleIdentifier", "Identifier", "it"),
      PropertySuffix("f"),
      NoArguments,
      PropertySuffix("g")], None)

  /** The name in `.name` is the suffix's identifier. */
  lemma PropertyNamed(name: string)
    ensures FirstNamed(PropertySuffix(name), "simpleIdentifier") == Some(PropertySuffix(name).children[1])
    ensures Description(PropertySuffix(name).children[1]) == "simpleIdentifier"
    ensures TextOf(PropertySuffix(name).children[1]) == name
  {
    var s := PropertySuffix(name);
    var dot := s.children[0];
    var id := s.children[1];
    TokenNode(dot);
    TokenNode(id);
    DescendantsOfCons(dot, [id]);
    DescendantsOfOne(id);
    assert SelfAndDescendants(s) == [s, dot, dot.children[0], id, id.children[0]];
    FirstNamedAt(s, "simpleIdentifier", 3);
  }

  /** `.name` after a receiver that names no path, with nothing after it. */
  lemma LastAccess(node: Ast, ctx: Context, rev: Revision, obj: Node, name: string)
    requires node == Inner("postfixUnaryExpression", [Converted(obj), PropertySuffix(name)], None)
    requires InternalIdentifierFrom(obj).None? && ctx.referencePrefix.None?
    requires name !in ctx.argumentNames && name !in ctx.options.symbolTypes
    ensures ParseAst(node, ctx, rev) == Ok(GetProperty(obj, Identifier(name)))
  {
    var p := PropertySuffix(name).children[1];
    PropertyNamed(name);
    SimpleIdentifierResolves(p, ctx.(topLevelVals := false), rev);
    NavigationStep(node, ctx, rev, obj, p, Identifier(name));
  }

  /** `it`, with `it` the only parameter, is the lambda argument. */
  lemma ItResolves(a: Ast, ctx: Context, rev: Revision)
    requires a == Leaf("simpleIdentifier", "Identifier", "it") && ctx == ItContext()
    ensures ParseAst(a, ctx, rev) == Ok(It)
  {
    TokenNode(a);
    SimpleIdentifierResolves(a, ctx, rev);
  }

  /** A name that is neither the parameter nor a registered symbol, read below the top level. */
  lemma PlainNameResolves(p: Ast, ctx: Context, rev: Revision, name: string)
    requires p == PropertySuffix(name).children[1] && ctx == ItContext().(topLevelVals := false)
    requires name != "it" && name !in O.DefaultSymbolTypes
    ensures ParseAst(p, ctx, rev) == Ok(Identifier(name))
  {
    PropertyNamed(name);
    SimpleIdentifierResolves(p, ctx, rev);
  }

  /** Neither `f` nor `g` is in the default symbol table. */
  lemma PlainNames()
    ensures "f" !in O.DefaultSymbolTypes && "g" !in O.DefaultSymbolTypes
  {
    O.DefaultTable();
  }

  /** What the first step of `it.f().g` needs: the receiver `it` and the property `f`. */
  lemma AccessParts(node: Ast, ctx: Context, rev: Revision)
    requires node == CallThenProperty && ctx == ItContext()
    ensures node.Inner? && node.description == "postfixUnaryExpression" && |node.children| == 4
    ensures Description(node.children[1]) == "navigationSuffix"
    ensures ParseAst(node.children[0], ctx, rev) == Ok(It)
    ensures FirstNamed(node.children[1], "simpleIdentifier") == Some(node.children[1].children[1])
    ensures ParseAst(node.children[1].children[1], ctx.(topLevelVals := false), rev) == Ok(Identifier("f"))
    ensures node.children[2..] == [NoArguments, PropertySuffix("g")]
  {
    var cs := node.children;
    assert cs[0] == Leaf("simpleIdentifier", "Identifier", "it") && cs[1] == PropertySuffix("f");
    ItResolves(cs[0], ctx, rev);
    PropertyNamed("f");
    PlainNames();
    PlainNameResolves(cs[1].children[1], ctx.(topLevelVals := false), rev, "f");
  }

  /** `it.f`, the first step of `it.f().g`: the rest goes on with the access as receiver. */
  lemma AccessThenRest(node: Ast, ctx: Context, rev: Revision)
    requires node == CallThenProperty && ctx == ItContext()
    ensures ParseAst(node, ctx, rev) ==
      ParseAst(Inner("postfixUnaryExpression",
        [Converted(GetProperty(It, Identifier("f"))), NoArguments, PropertySuffix("g")], None),
        ctx.(topLevelVals := false), rev)
  {
    var fAccess := GetProperty(It, Identifier("f"));
    AccessParts(node, ctx, rev);
    NavigationStep(node, ctx, rev, It, node.children[1].children[1], Identifier("f"));
    assert [Converted(fAccess)] + node.children[2..] == [Converted(fAccess), NoArguments, PropertySuffix("g")];
  }

  /** What the call in `it.f().g` needs: the receiver, the argument list and no arguments. */
  lemma CallParts(node: Ast, ctx: Context, rev: Revision, fAccess: Node)
    requires node == Inner("postfixUnaryExpression", [Converted(fAccess), NoArguments, PropertySuffix("g")], None)
    ensures Description(node.children[1]) == "valueArguments"
    ensures ParseAst(node.children[0], ctx, rev) == Ok(fAccess)
    ensures FirstNamed(node, "valueArguments") == Some(node.children[1])
    ensures NonTerminals(ChildrenOf(node.children[1])) == []
    ensures node.children[2..] == [PropertySuffix("g")]
  {
    ArgumentsFound(node, fAccess);
    assert ChildrenOf(node.children[1]) == [Token("LPAREN", "("), Token("RPAREN", ")")];
  }

  /** The argument list is the first `valueArguments` node after the converted receiver. */
  lemma ArgumentsFound(node: Ast, fAccess: Node)
    requires node == Inner("postfixUnaryExpression", [Converted(fAccess), NoArguments, PropertySuffix("g")], None)
    ensures FirstNamed(node, "valueArguments") == Some(node.children[1])
  {
    var cs := node.children;
    assert SelfAndDescendants(cs[0]) == [cs[0]];
    assert Description(node) != "valueArguments" && Description(cs[0]) != "valueArguments";
    FirstAfterLeaf(node, "valueArguments");
  }

  /** The first node of a name, when it is the second child and the first child is a leaf. */
  lemma FirstAfterLeaf(node: Ast, name: string)
    requires node.Inner? && |node.children| >= 2
    requires SelfAndDescendants(node.children[0]) == [node.children[0]]
    requires Description(node) != name && Description(node.children[0]) != name
    requires Description(node.children[1]) == name
    ensures FirstNamed(node, name) == Some(node.children[1])
  {
    var cs := node.children;
    assert cs == [cs[0]] + ([cs[1]] + cs[2..]);
    DescendantsOfCons(cs[0], [cs[1]] + cs[2..]);
    DescendantsOfCons(cs[1], cs[2..]);
    var all := SelfAndDescendants(node);
    assert all == [node, cs[0]] + SelfAndDescendants(cs[1]) + DescendantsOfAll(cs[2..]);
    assert all[..2] == [node, cs[0]] && all[2] == cs[1];
    FirstNamedAt(node, name, 2);
  }

  /** `f()` after `it.`: as written the call ends the translation, corrected `.g` follows. */
  lemma CallThenRest(node: Ast, ctx: Context, rev: Revision, fAccess: Node)
    requires fAccess == GetProperty(It, Identifier("f"))
    requires node == Inner("postfixUnaryExpression", [Converted(fAccess), NoArguments, PropertySuffix("g")], None)
    ensures rev == AsWritten ==> ParseAst(node, ctx, rev) == Ok(Call(fAccess, []))
    ensures rev == Corrected ==> (ParseAst(node, ctx, rev) ==
      ParseAst(Inner("postfixUnaryExpression", [Converted(Call(fAccess, [])), PropertySuffix("g")], None),
        ctx.(topLevelVals := false, referencePrefix := None), rev))
  {
    CallParts(node, ctx, rev, fAccess);
    CallStep(node, ctx, rev, fAccess, []);
    assert [Converted(Call(fAccess, []))] + node.children[2..] == [Converted(Call(fAccess, [])), PropertySuffix("g")];
  }

  /**
   * As written `it.f().g` loses `.g`: the call ends the translation. Corrected, the call is the
   * receiver of `.g`.
   */
  lemma CallSuffixDropped()
    ensures ParseAst(CallThenProperty, ItContext(), AsWritten) == Ok(Call(GetProperty(It, Identifier("f")), []))
    ensures ParseAst(CallThenProperty, ItContext(), Corrected) ==
      Ok(GetProperty(Call(GetProperty(It, Identifier("f")), []), Identifier("g")))
  {
    var fAccess := GetProperty(It, Identifier("f"));
    var call := Call(fAccess, []);
    var ctx := ItContext().(topLevelVals := false);
    var afterF := Inner("postfixUnaryExpression", [Converted(fAccess), NoArguments, PropertySuffix("g")], None);
    AccessThenRest(CallThenProperty, ItContext(), AsWritten);
    AccessThenRest(CallThenProperty, ItContext(), Corrected);
    CallThenRest(afterF, ctx, AsWritten, fAccess);
    CallThenRest(afterF, ctx, Corrected, fAccess);
    assert ctx.(topLevelVals := false, referencePrefix := None) == ctx;
    PlainNames();
    LastAccess(Inner("postfixUnaryExpression", [Converted(call), PropertySuffix("g")], None), ctx, Corrected, call, "g");
  }

  /**
   * Whatever follows a call: as written the call is the whole result; corrected, the suffixes go
   * on with the call as their receiver.
   */
  lemma CallKeepsSuffixes(cs: seq<Ast>, span: Option<Span>, ctx: Context, obj: Node, args: seq<Node>)
    requires |cs| > 2 && Description(cs[1]) == "valueArguments"
    requires FirstNamed(Inner("postfixUnaryExpression", cs, span), "valueArguments") == Some(cs[1])
    requires forall rev: Revision :: ParseAst(cs[0], ctx, rev) == Ok(obj)
    requires var items := NonTerminals(ChildrenOf(cs[1]));
      |items| == |args| && forall rev: Revision, i :: 0 <= i < |items| ==> ParseAst(items[i], ctx, rev) == Ok(args[i])
    ensures ParseAst(Inner("postfixUnaryExpression", cs, span), ctx, AsWritten) == Ok(Call(obj, args))
    ensures ParseAst(Inner("postfixUnaryExpression", cs, span), ctx, Corrected) ==
      ParseAst(Inner("postfixUnaryExpression", [Converted(Call(obj, args))] + cs[2..], None),
        ctx.(topLevelVals := false, referencePrefix := None), Corrected)
  {
    var node := Inner("postfixUnaryExpression", cs, span);
    CallStep(node, ctx, AsWritten, obj, args);
    CallStep(node, ctx, Corrected, obj, args);
  }
}
