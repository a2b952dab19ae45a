/**
 * Lookups over a parsed file: decoding literal constants, reading `@Kotlinq` annotations,
 * collecting nested lambda literals, and selecting the lambdas to rewrite.
 */
module Lookups {
  import opened Wrappers
  import opened Text
  import opened Nodes
  import opened Selectors

  // ---------------------------------------------------------------------------
  // Literal constants
  // ---------------------------------------------------------------------------

  const IntMin: int := -0x8000_0000
  const IntMax: int := 0x7fff_ffff
  const LongMin: int := -0x8000_0000_0000_0000
  const LongMax: int := 0x7fff_ffff_ffff_ffff

  /** The message of the NumberFormatException thrown for a text that is not a number. */
  function NumberFormatMessage(s: string): string
  {
    "For input string: \"" + s + "\""
  }

  /**
   * The value of a literal constant, chosen by the kind of its token: a decimal Int, a decimal
   * Long after its `L`/`l` suffix is trimmed, an opaque floating-point text, a Boolean, or null
   * (`Some(Null)`, distinct from `None`, which says "not a literal"). Numbers out of range or not
   * in plain decimal throw.
   */
  function DecodeConstant(kind: string, text: string): Outcome<Option<Literal>>
  {
    if kind == "IntegerLiteral" then
      match ParseDecimal(text, IntMin, IntMax)
      case Some(i) => Ok(Some(IntValue(i)))
      case None => Throw(Some(NumberFormatMessage(text)))
    else if kind == "LongLiteral" then
      var digits := TrimEndChars(text, {'L', 'l'});
      match ParseDecimal(digits, LongMin, LongMax)
      case Some(l) => Ok(Some(LongValue(l)))
      case None => Throw(Some(NumberFormatMessage(digits)))
    else if kind == "FloatLiteral" || kind == "RealLiteral" || kind == "DoubleLiteral" then
      Ok(Some(FloatValue(text)))
    else if kind == "BooleanLiteral" then
      Ok(Some(BoolValue(IsTrueIgnoringCase(text))))
    else if kind == "NullLiteral" then
      Ok(Some(Null))
    else
      Ok(None)
  }

  const LiteralConstantSel: Selector := Named1("literalConstant")
  const LineStringLiteralSel: Selector := Named1("lineStringLiteral")
  const LineStringContentSel: Selector := Named1("lineStringContent")

  /**
   * `constLiteral`: `Ok(None)` when the tree holds no literal; a literal constant is looked for
   * first, then a string literal, which stands for the text of its first content segment. A
   * literal constant without a token, or a string literal without content, fails the `!!`
   * with no message.
   */
  function ConstLiteral(a: Ast): (r: Outcome<Option<Literal>>)
    ensures First(a, LiteralConstantSel).None? && First(a, LineStringLiteralSel).None? ==> r == Ok(None)
    ensures First(a, LiteralConstantSel).Some? && FirstTerminal(First(a, LiteralConstantSel).value).Some? ==>
      r == DecodeConstant(FirstTerminal(First(a, LiteralConstantSel).value).value.kind,
                          TextOf(First(a, LiteralConstantSel).value))
    ensures First(a, LiteralConstantSel).Some? && FirstTerminal(First(a, LiteralConstantSel).value).None? ==>
      r == Throw(None)
    ensures First(a, LiteralConstantSel).None? && First(a, LineStringLiteralSel).Some? ==>
      r == match First(First(a, LineStringLiteralSel).value, LineStringContentSel)
           case Some(c) => Ok(Some(StringValue(TextOf(c))))
           case None => Throw(None)
    ensures r.Ok? && r.value.Some? && r.value.value.StringValue? ==>
      First(a, LiteralConstantSel).None? && First(a, LineStringLiteralSel).Some?
  {
    match First(a, LiteralConstantSel)
    case Some(lc) =>
      (match FirstTerminal(lc)
       case None => Throw(None)
       case Some(t) => DecodeConstant(t.kind, TextOf(lc)))
    case None =>
      match First(a, LineStringLiteralSel)
      case Some(ls) =>
        (match First(ls, LineStringContentSel)
         case Some(c) => Ok(Some(StringValue(TextOf(c))))
         case None => Throw(None))
      case None => Ok(None)
  }

  /** An Int literal printed in decimal reads back as itself. */
  lemma DecodeIntegerLiteral(n: nat)
    requires n <= IntMax
    ensures DecodeConstant("IntegerLiteral", NatToString(n)) == Ok(Some(IntValue(n)))
  {
    ParseNatToString(n, IntMin, IntMax);
  }

  /** A decimal Int literal beyond the Int range throws the number-format failure. */
  lemma DecodeIntegerOverflow(n: nat)
    requires n > IntMax
    ensures DecodeConstant("IntegerLiteral", NatToString(n)) == Throw(Some(NumberFormatMessage(NatToString(n))))
  {
    var s := NatToString(n);
    assert IsDigit(s[0]);
  }

  /** A Long literal, its suffix in either case, reads back as itself. */
  lemma DecodeLongLiteral(n: nat, suffix: char)
    requires n <= LongMax && (suffix == 'L' || suffix == 'l')
    ensures DecodeConstant("LongLiteral", NatToString(n) + [suffix]) == Ok(Some(LongValue(n)))
  {
    var s := NatToString(n);
    assert (s + [suffix])[..|s|] == s;
    assert TrimEndChars(s + [suffix], {'L', 'l'}) == TrimEndChars(s, {'L', 'l'});
    assert IsDigit(s[|s| - 1]);
    ParseNatToString(n, LongMin, LongMax);
  }

  /** Booleans decode by comparing with "true" ignoring case; null decodes to a present null. */
  lemma DecodeBooleanAndNull(text: string)
    ensures DecodeConstant("BooleanLiteral", text) == Ok(Some(BoolValue(IsTrueIgnoringCase(text))))
    ensures DecodeConstant("NullLiteral", text) == Ok(Some(Null))
    ensures DecodeConstant("NullLiteral", text) != Ok(None)
  {
  }

  /** A token kind that names no literal decodes to "not a literal". */
  lemma DecodeOtherKind(kind: string, text: string)
    requires kind !in {"IntegerLiteral", "LongLiteral", "FloatLiteral", "RealLiteral", "DoubleLiteral",
                       "BooleanLiteral", "NullLiteral"}
    ensures DecodeConstant(kind, text) == Ok(None)
  {
  }

  // ---------------------------------------------------------------------------
  // @Kotlinq annotations
  // ---------------------------------------------------------------------------

  /** The simple name of the marker annotation class. */
  const KotlinqName: string := "Kotlinq"

  const AnnotationNameSel: Selector := Anywhere(Named("annotation"), [Step(Descendant, Named("simpleIdentifier"))])
  const AnnotationArgumentSel: Selector := Anywhere(Named("annotation"), [Step(Descendant, Named("valueArgument"))])

  /** The first annotation in `a` is named `Kotlinq`. */
  predicate IsKotlinqAnnotation(a: Ast)
  {
    var name := First(a, AnnotationNameSel);
    name.Some? && TextOf(name.value) == KotlinqName
  }

  /**
   * `None` when `ast` is absent or is not a `@Kotlinq` annotation; otherwise `Some(b)`, where `b`
   * says whether the annotation's argument decodes to `true`.
   */
  function KotlinqFlag(ast: Option<Ast>): (r: Outcome<Option<bool>>)
    ensures ast.None? ==> r == Ok(None)
    ensures ast.Some? && !IsKotlinqAnnotation(ast.value) ==> r == Ok(None)
    ensures ast.Some? && IsKotlinqAnnotation(ast.value) ==> r != Ok(None)
  {
    match ast
    case None => Ok(None)
    case Some(a) =>
      if !IsKotlinqAnnotation(a) then Ok(None)
      else
        match First(a, AnnotationArgumentSel)
        case None => Ok(Some(false))
        case Some(arg) =>
          match ConstLiteral(arg)
          case Throw(m) => Throw(m)
          case Ok(v) => Ok(Some(v == Some(BoolValue(true))))
  }

  /** `isOff`: a `@Kotlinq` annotation whose argument is `true`. */
  function IsOff(ast: Option<Ast>): Outcome<bool>
  {
    match KotlinqFlag(ast)
    case Throw(m) => Throw(m)
    case Ok(flag) => Ok(flag == Some(true))
  }

  /** `isOn`: a `@Kotlinq` annotation whose argument is absent or not `true`. */
  function IsOn(ast: Option<Ast>): Outcome<bool>
  {
    match KotlinqFlag(ast)
    case Throw(m) => Throw(m)
    case Ok(flag) => Ok(flag == Some(false))
  }

  /**
   * For a `@Kotlinq` annotation exactly one of `isOn` and `isOff` holds, and `isOff` holds
   * exactly when the argument is `true`; for anything else, absent included, neither holds.
   */
  lemma OnOffExclusive(ast: Option<Ast>)
    ensures KotlinqFlag(ast).Ok? ==> IsOn(ast).Ok? && IsOff(ast).Ok?
    ensures KotlinqFlag(ast) == Ok(Some(true)) ==> IsOff(ast) == Ok(true) && IsOn(ast) == Ok(false)
    ensures KotlinqFlag(ast) == Ok(Some(false)) ==> IsOn(ast) == Ok(true) && IsOff(ast) == Ok(false)
    ensures KotlinqFlag(ast) == Ok(None) ==> IsOn(ast) == Ok(false) && IsOff(ast) == Ok(false)
    ensures IsOn(ast) == Ok(true) ==> IsOff(ast) == Ok(false)
  {
  }

  // ---------------------------------------------------------------------------
  // Nested matches
  // ---------------------------------------------------------------------------

  /** `all("& name")`: the nodes strictly below `a` named `name`, in document order. */
  function NestedMatches(a: Ast, name: string): (r: seq<Ast>)
    ensures r == Keep(Descendants(a), Named(name))
  {
    var step := Step(Descendant, Named(name));
    assert All(a, Scoped([step])) == Advance([a], step);
    assert Advance([a], step) == Keep(Candidates(a, Descendant), Named(name)) + Advance([], step);
    All(a, Scoped([step]))
  }

  /**
   * `recursive(name)` with `onlyLeaves`: each match below `a` contributes itself when nothing below
   * it matches, and its own leaves otherwise.
   */
  function Recursive(a: Ast, name: string): seq<Ast>
    decreases AstSize(a), 1, 0
  {
    LeavesOf(NestedMatches(a, name), a, name)
  }

  function LeavesOf(ms: seq<Ast>, a: Ast, name: string): seq<Ast>
    requires forall m :: m in ms ==> m in Descendants(a)
    decreases AstSize(a), 0, |ms|
  {
    if ms == [] then []
    else
      DescendantSmaller(a, ms[0]);
      var leaves := Recursive(ms[0], name);
      (if leaves == [] then [ms[0]] else leaves) + LeavesOf(ms[1..], a, name)
  }

  /**
   * Every node `recursive` returns lies below `a`, carries the name, and has no match below it:
   * only the innermost lambdas are collected.
   */
  lemma {:induction false} RecursiveLeaves(a: Ast, name: string, x: Ast)
    requires x in Recursive(a, name)
    ensures x in Descendants(a) && Description(x) == name && NestedMatches(x, name) == []
    decreases AstSize(a), 1, 0
  {
    LeavesOfLeaves(NestedMatches(a, name), a, name, x);
  }

  lemma {:induction false} LeavesOfLeaves(ms: seq<Ast>, a: Ast, name: string, x: Ast)
    requires forall m :: m in ms ==> m in Descendants(a)
    requires forall m :: m in ms ==> Description(m) == name
    requires x in LeavesOf(ms, a, name)
    ensures x in Descendants(a) && Description(x) == name && NestedMatches(x, name) == []
    decreases AstSize(a), 0, |ms|
  {
    DescendantSmaller(a, ms[0]);
    var leaves := Recursive(ms[0], name);
    if x in (if leaves == [] then [ms[0]] else leaves) {
      if leaves == [] {
        assert x == ms[0];
        NoLeavesNoMatches(ms[0], name);
      } else {
        RecursiveLeaves(ms[0], name, x);
        DescendantsTransitive(a, ms[0], x);
      }
    } else {
      LeavesOfLeaves(ms[1..], a, name, x);
    }
  }

  /** A node with a match below it has at least one leaf below it. */
  lemma {:induction false} NoLeavesNoMatches(a: Ast, name: string)
    requires Recursive(a, name) == []
    ensures NestedMatches(a, name) == []
  {
  }

  // ---------------------------------------------------------------------------
  // Selecting the lambdas to rewrite
  // ---------------------------------------------------------------------------

  /** A lambda to rewrite and the character range `[insertFrom, insertTo)` it occupies. */
  datatype ParsedLambda = ParsedLambda(astTree: Ast, insertFrom: nat, insertTo: nat)

  const LambdaLiteral: string := "lambdaLiteral"
  const ClassDeclarationSel: Selector := Named1("classDeclaration")
  const TopLevelFunctionSel: Selector :=
    Anywhere(Named("topLevelObject"), [Step(Child, Named("declaration")), Step(Child, Named("functionDeclaration"))])
  const ModifierAnnotationSel: Selector := Scoped([Step(Child, Named("modifiers")), Step(Descendant, Named("annotation"))])
  const AnnotatedLambdaSel: Selector := Named1("annotatedLambda")
  const OwnLambdaSel: Selector := Scoped([Step(Child, Named(LambdaLiteral))])

  /** `isOn` (`off` false) or `isOff` (`off` true) of a declaration's first modifier annotation. */
  function Marked(d: Ast, off: bool): Outcome<bool>
  {
    var annotation := First(d, ModifierAnnotationSel);
    if off then IsOff(annotation) else IsOn(annotation)
  }

  /**
   * The declarations whose first modifier annotation is `@Kotlinq` switched on (`off` false) or
   * off (`off` true), in order; the first failing annotation read fails the whole filter.
   */
  function KeepMarked(ds: seq<Ast>, off: bool): (r: Outcome<seq<Ast>>)
    ensures r.Ok? <==> forall i :: 0 <= i < |ds| ==> Marked(ds[i], off).Ok?
    ensures r.Ok? ==> forall d :: d in r.value <==> d in ds && Marked(d, off) == Ok(true)
  {
    if ds == [] then Ok([])
    else
      match Marked(ds[0], off)
      case Throw(m) => Throw(m)
      case Ok(keep) =>
        match KeepMarked(ds[1..], off)
        case Throw(m) => Throw(m)
        case Ok(rest) =>
          assert forall d :: d in ds <==> d == ds[0] || d in ds[1..];
          Ok(if keep then [ds[0]] + rest else rest)
  }

  /** `l` is the own lambda literal of an annotated lambda `al` marked `@Kotlinq(true)`. */
  predicate OwnLambdaOff(al: Ast, l: Ast)
  {
    IsOff(Some(al)) == Ok(true) && First(al, OwnLambdaSel) == Some(l)
  }

  /** The lambda literals of the annotated lambdas marked `@Kotlinq(true)`, in order. */
  function LambdasMarkedOff(ls: seq<Ast>): (r: Outcome<seq<Ast>>)
    ensures r.Ok? <==> forall i :: 0 <= i < |ls| ==> IsOff(Some(ls[i])).Ok?
    ensures r.Ok? ==> forall x :: x in r.value <==> exists al :: al in ls && OwnLambdaOff(al, x)
  {
    if ls == [] then Ok([])
    else
      match IsOff(Some(ls[0]))
      case Throw(m) => Throw(m)
      case Ok(off) =>
        match LambdasMarkedOff(ls[1..])
        case Throw(m) => Throw(m)
        case Ok(rest) =>
          var own := First(ls[0], OwnLambdaSel);
          var out := if off && own.Some? then [own.value] + rest else rest;
          assert forall x :: x in out <==> exists al :: al in ls && OwnLambdaOff(al, x) by {
            forall x | x in out
              ensures exists al :: al in ls && OwnLambdaOff(al, x)
            {
              if x !in rest {
                assert OwnLambdaOff(ls[0], x);
              } else {
                var al :| al in ls[1..] && OwnLambdaOff(al, x);
                assert al in ls;
              }
            }
            forall x, al | al in ls && OwnLambdaOff(al, x)
              ensures x in out
            {
              if al != ls[0] {
                assert al in ls[1..];
              }
            }
          }
          Ok(out)
  }

  /** The innermost lambdas of each declaration, in order. */
  function LambdasIn(ds: seq<Ast>): (r: seq<Ast>)
    ensures forall x :: x in r <==> exists d :: d in ds && x in Recursive(d, LambdaLiteral)
  {
    if ds == [] then []
    else
      var out := Recursive(ds[0], LambdaLiteral) + LambdasIn(ds[1..]);
      assert forall x :: x in out <==> exists d :: d in ds && x in Recursive(d, LambdaLiteral) by {
        forall x | x in out
          ensures exists d :: d in ds && x in Recursive(d, LambdaLiteral)
        {
          if x !in Recursive(ds[0], LambdaLiteral) {
            var d :| d in ds[1..] && x in Recursive(d, LambdaLiteral);
            assert d in ds;
          }
        }
        forall x, d | d in ds && x in Recursive(d, LambdaLiteral)
          ensures x in out
        {
          if d != ds[0] {
            assert d in ds[1..];
          }
        }
      }
      out
  }

  /**
   * The candidates: every innermost lambda, or, when only annotated code is rewritten, those in
   * classes and top-level functions marked `@Kotlinq`.
   */
  function CandidateLambdas(ast: Ast, onlyIfAnnotationPresent: bool): (r: Outcome<seq<Ast>>)
    ensures !onlyIfAnnotationPresent ==> r == Ok(Recursive(ast, LambdaLiteral))
  {
    if onlyIfAnnotationPresent then
      match KeepMarked(All(ast, ClassDeclarationSel), false)
      case Throw(m) => Throw(m)
      case Ok(classes) =>
        match KeepMarked(All(ast, TopLevelFunctionSel), false)
        case Throw(m) => Throw(m)
        case Ok(functions) => Ok(LambdasIn(classes) + LambdasIn(functions))
    else
      Ok(Recursive(ast, LambdaLiteral))
  }

  /** `x` is an innermost lambda of a declaration among `ds` marked `@Kotlinq(true)`. */
  predicate InDeclarationOff(ds: seq<Ast>, x: Ast)
  {
    exists d :: d in ds && Marked(d, true) == Ok(true) && x in Recursive(d, LambdaLiteral)
  }

  /**
   * The lambdas switched off: those annotated `@Kotlinq(true)` themselves, and those in classes
   * and top-level functions annotated so.
   */
  function OffLambdas(ast: Ast): (r: Outcome<seq<Ast>>)
    ensures r.Ok? ==> forall x :: x in r.value <==>
      (exists al :: al in All(ast, AnnotatedLambdaSel) && OwnLambdaOff(al, x))
      || InDeclarationOff(All(ast, ClassDeclarationSel), x)
      || InDeclarationOff(All(ast, TopLevelFunctionSel), x)
  {
    match LambdasMarkedOff(All(ast, AnnotatedLambdaSel))
    case Throw(m) => Throw(m)
    case Ok(own) =>
      match KeepMarked(All(ast, ClassDeclarationSel), true)
      case Throw(m) => Throw(m)
      case Ok(classes) =>
        match KeepMarked(All(ast, TopLevelFunctionSel), true)
        case Throw(m) => Throw(m)
        case Ok(functions) => Ok(own + LambdasIn(classes) + LambdasIn(functions))
  }

  /** `xs - ys` on lists: the elements of `xs` not in `ys`, in order, repeats kept. */
  function Minus(xs: seq<Ast>, ys: seq<Ast>): (r: seq<Ast>)
    ensures |r| <= |xs|
    ensures forall x :: x in r <==> x in xs && x !in ys
  {
    if xs == [] then []
    else if xs[0] in ys then Minus(xs[1..], ys)
    else [xs[0]] + Minus(xs[1..], ys)
  }

  /**
   * The lambdas to rewrite: the candidates minus the lambdas switched off. No candidates means
   * nothing is selected and the switched-off lambdas are not even looked for.
   */
  function Selected(ast: Ast, onlyIfAnnotationPresent: bool): (r: Outcome<seq<Ast>>)
    ensures CandidateLambdas(ast, onlyIfAnnotationPresent) == Ok([]) ==> r == Ok([])
    ensures CandidateLambdas(ast, onlyIfAnnotationPresent).Throw? ==>
      r == Throw(CandidateLambdas(ast, onlyIfAnnotationPresent).message)
    ensures r.Ok? && CandidateLambdas(ast, onlyIfAnnotationPresent) != Ok([]) ==> OffLambdas(ast).Ok?
    ensures r.Ok? && OffLambdas(ast).Ok? ==>
      CandidateLambdas(ast, onlyIfAnnotationPresent).Ok? &&
      forall x :: x in r.value <==>
        x in CandidateLambdas(ast, onlyIfAnnotationPresent).value && x !in OffLambdas(ast).value
  {
    match CandidateLambdas(ast, onlyIfAnnotationPresent)
    case Throw(m) => Throw(m)
    case Ok(on) =>
      if on == [] then Ok([])
      else
        match OffLambdas(ast)
        case Throw(m) => Throw(m)
        case Ok(off) => Ok(Minus(on, off))
  }

  /**
   * A lambda switched off is never rewritten: the own lambda of an annotated lambda marked
   * `@Kotlinq(true)`, or an innermost lambda of a class or top-level function marked so, is not
   * selected, whichever mode is in force.
   */
  lemma SwitchedOffNotSelected(ast: Ast, onlyIfAnnotationPresent: bool, x: Ast)
    requires Selected(ast, onlyIfAnnotationPresent).Ok?
    requires (exists al :: al in All(ast, AnnotatedLambdaSel) && OwnLambdaOff(al, x))
      || InDeclarationOff(All(ast, ClassDeclarationSel), x)
      || InDeclarationOff(All(ast, TopLevelFunctionSel), x)
    ensures x !in Selected(ast, onlyIfAnnotationPresent).value
  {
    if CandidateLambdas(ast, onlyIfAnnotationPresent) != Ok([]) {
      assert x in OffLambdas(ast).value;
    }
  }

  /** Where a syntax node sits in the text, if the parser recorded it. */
  function SpanOf(a: Ast): Option<Span>
  {
    if a.Inner? then a.span else None
  }

  /**
   * The positioned records of `lambdas`, in order; a lambda without a recorded position fails, as
   * its position is read with `!!`.
   */
  method Locate(lambdas: seq<Ast>) returns (r: Outcome<seq<ParsedLambda>>)
    ensures r.Ok? <==> forall i :: 0 <= i < |lambdas| ==> SpanOf(lambdas[i]).Some?
    ensures r.Throw? ==> r.message.None?
    ensures r.Ok? ==> |r.value| == |lambdas| && forall i :: 0 <= i < |lambdas| ==>
      r.value[i] == ParsedLambda(lambdas[i], SpanOf(lambdas[i]).value.start, SpanOf(lambdas[i]).value.stop)
  {
    var result: seq<ParsedLambda> := [];
    var i := 0;
    while i < |lambdas|
      invariant 0 <= i <= |lambdas|
      invariant |result| == i
      invariant forall j :: 0 <= j < i ==> SpanOf(lambdas[j]).Some?
      invariant forall j :: 0 <= j < i ==>
        result[j] == ParsedLambda(lambdas[j], SpanOf(lambdas[j]).value.start, SpanOf(lambdas[j]).value.stop)
    {
      var span := SpanOf(lambdas[i]);
      if span.None? {
        return Throw(None);
      }
      result := result + [ParsedLambda(lambdas[i], span.value.start, span.value.stop)];
      i := i + 1;
    }
    return Ok(result);
  }

  /**
   * `searchLambdas`: the selected lambdas with their positions, in document order of selection.
   */
  method SearchLambdas(ast: Ast, onlyIfAnnotationPresent: bool) returns (r: Outcome<seq<ParsedLambda>>)
    ensures Selected(ast, onlyIfAnnotationPresent).Throw? ==>
      r == Throw(Selected(ast, onlyIfAnnotationPresent).message)
    ensures Selected(ast, onlyIfAnnotationPresent).Ok? ==>
      var lambdas := Selected(ast, onlyIfAnnotationPresent).value;
      (r.Ok? <==> forall i :: 0 <= i < |lambdas| ==> SpanOf(lambdas[i]).Some?)
      && (r.Throw? ==> r.message.None?)
      && (r.Ok? ==> |r.value| == |lambdas| && forall i :: 0 <= i < |lambdas| ==>
            r.value[i] == ParsedLambda(lambdas[i], SpanOf(lambdas[i]).value.start, SpanOf(lambdas[i]).value.stop))
  {
    var selected := Selected(ast, onlyIfAnnotationPresent);
    if selected.Throw? {
      return Throw(selected.message);
    }
    r := Locate(selected.value);
  }
}
