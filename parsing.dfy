/**
 * Rewriting a source file: every selected lambda literal is replaced, from the last one to the
 * first, by a `withExpressionN(original, { expression tree })` wrapper; a lambda written after a
 * call's closing parenthesis is moved inside the call as its last argument.
 */
module Parsing {
  import opened Wrappers
  import opened Text
  import opened Nodes
  import opened Selectors
  import opened Lookups
  import opened NodeConverter
  import O = ConverterOptions
  import opened Sorting
  import opened Walkers

  /**
   * How a lambda is rendered: from its trimmed original text, its tree and whether it trails a
   * call. Rendering converts the tree, and a conversion that throws fails the whole fold.
   */
  type Renderer = (string, Ast, bool) -> Outcome<string>

  // ---------------------------------------------------------------------------
  // One splice
  // ---------------------------------------------------------------------------

  /** Start of the look-behind window: up to three characters before the lambda. */
  function WindowStart(from: nat): (w: nat)
    ensures w <= from && from - w <= 3
    ensures from >= 3 ==> w == from - 3
  {
    if from >= 3 then from - 3 else 0
  }

  predicate EndsInClose(b: string)
  {
    b != "" && b[|b| - 1] == ')'
  }

  /** The up-to-three characters before `from`, trimmed, are non-empty and end in `)`. */
  predicate IsTrailing(fc: string, from: nat)
    requires from <= |fc|
  {
    EndsInClose(Trim(fc[WindowStart(from)..from]))
  }

  /** `)` is not whitespace, so trimming never removes it. */
  lemma CloseIsNotWhitespace()
    ensures !IsWhitespace(')')
  {
  }

  /** A `)` followed, up to `from`, by whitespace only, at position `k` of the window. */
  predicate ClosesBefore(fc: string, from: nat, k: int)
    requires from <= |fc|
  {
    WindowStart(from) <= k < from && fc[k] == ')' && forall j :: k < j < from ==> IsWhitespace(fc[j])
  }

  /** Within one string: trimmed, it ends in `)` iff a `)` is followed by whitespace only. */
  lemma EndsInCloseAt(w: string) returns (e: nat)
    requires EndsInClose(Trim(w))
    ensures 0 < e <= |w| && w[e - 1] == ')'
    ensures forall j :: e <= j < |w| ==> IsWhitespace(w[j])
  {
    var i;
    i, e := TrimBounds(w);
    assert w[e - 1] == Trim(w)[|Trim(w)| - 1];
  }

  lemma CloseAtEnds(w: string, p: nat)
    requires p < |w| && w[p] == ')'
    requires forall j :: p < j < |w| ==> IsWhitespace(w[j])
    ensures EndsInClose(Trim(w))
  {
    var i, e := TrimBounds(w);
    CloseIsNotWhitespace();
    assert Trim(w) != "";
    var b := Trim(w);
    assert w[e - 1] == b[|b| - 1];
    assert e - 1 == p;
  }

  lemma TrailingHasClose(fc: string, from: nat) returns (k: int)
    requires from <= |fc| && IsTrailing(fc, from)
    ensures ClosesBefore(fc, from, k)
  {
    var lo := WindowStart(from);
    var w := fc[lo..from];
    var e := EndsInCloseAt(w);
    k := lo + e - 1;
    assert fc[k] == w[e - 1];
    forall j | k < j < from
      ensures IsWhitespace(fc[j])
    {
      assert fc[j] == w[j - lo];
    }
  }

  lemma CloseMakesTrailing(fc: string, from: nat, k: int)
    requires from <= |fc| && ClosesBefore(fc, from, k)
    ensures IsTrailing(fc, from)
  {
    var lo := WindowStart(from);
    var w := fc[lo..from];
    assert w[k - lo] == ')';
    forall j | k - lo < j < |w|
      ensures IsWhitespace(w[j])
    {
      assert w[j] == fc[lo + j];
    }
    CloseAtEnds(w, k - lo);
  }

  /**
   * A lambda trails a call iff the window before it holds a `)` followed by nothing but
   * whitespace.
   */
  lemma TrailingIff(fc: string, from: nat)
    requires from <= |fc|
    ensures IsTrailing(fc, from) <==> exists k :: ClosesBefore(fc, from, k)
  {
    if IsTrailing(fc, from) {
      var k := TrailingHasClose(fc, from);
    }
    if exists k :: ClosesBefore(fc, from, k) {
      var k :| ClosesBefore(fc, from, k);
      CloseMakesTrailing(fc, from, k);
    }
  }

  /**
   * Where the replaced range begins: the lambda's own start, or for a trailing lambda the last
   * `)` at or before it, which lies in the look-behind window.
   */
  function RangeStart(fc: string, from: nat): (start: nat)
    requires from <= |fc|
    ensures !IsTrailing(fc, from) ==> start == from
    ensures IsTrailing(fc, from) ==>
      WindowStart(from) <= start <= from && start < |fc| && fc[start] == ')' &&
      forall j :: start < j <= from && j < |fc| ==> fc[j] != ')'
  {
    if IsTrailing(fc, from) then
      TrailingIff(fc, from);
      var k :| ClosesBefore(fc, from, k);
      var last := LastIndexOf(fc, ')', from);
      assert last >= k;
      last
    else
      from
  }

  /** The message of the exception `substring` throws for a range outside the text. */
  function SubstringError(begin: nat, end: nat, length: nat): string
  {
    "begin " + NatToString(begin) + ", end " + NatToString(end) + ", length " + NatToString(length)
  }

  /** The rendering of one lambda whose span lies within the text. */
  function Rendering(fc: string, lambda: ParsedLambda, render: Renderer): Outcome<string>
    requires lambda.insertFrom <= lambda.insertTo <= |fc|
  {
    render(Trim(fc[lambda.insertFrom..lambda.insertTo]), lambda.astTree, IsTrailing(fc, lambda.insertFrom))
  }

  /**
   * One step of the fold: replace the lambda's range (widened back to the `)` for a trailing
   * lambda) by its rendering. A span reaching past the text, or ending before it starts, fails
   * as `substring` does, before anything is rendered; a rendering that fails fails the step.
   */
  function Splice(fc: string, lambda: ParsedLambda, render: Renderer): (r: Outcome<string>)
    ensures !(lambda.insertFrom <= lambda.insertTo <= |fc|) ==>
      r == Throw(Some(SubstringError(lambda.insertFrom, lambda.insertTo, |fc|)))
    ensures lambda.insertFrom <= lambda.insertTo <= |fc| ==>
      var text := Rendering(fc, lambda, render);
      && (text.Throw? ==> r == Throw(text.message))
      && (text.Ok? ==>
        var start := RangeStart(fc, lambda.insertFrom);
        && r.Ok?
        && |r.value| == start + |text.value| + (|fc| - lambda.insertTo)
        && r.value[..start] == fc[..start]
        && r.value[start..start + |text.value|] == text.value
        && r.value[start + |text.value|..] == fc[lambda.insertTo..])
  {
    var from := lambda.insertFrom;
    var to := lambda.insertTo;
    if !(from <= to <= |fc|) then
      Throw(Some(SubstringError(from, to, |fc|)))
    else
      var start := RangeStart(fc, from);
      match Rendering(fc, lambda, render)
      case Throw(m) => Throw(m)
      case Ok(text) =>
        var out := fc[..start] + text + fc[to..];
        assert out[..start] == fc[..start];
        assert out[start..start + |text|] == text;
        assert out[start + |text|..] == fc[to..];
        Ok(out)
  }

  // ---------------------------------------------------------------------------
  // The fold over all lambdas
  // ---------------------------------------------------------------------------

  /** Splice each lambda in turn into the text the previous ones produced; the first failure stops. */
  function SpliceAll(fc: string, lambdas: seq<ParsedLambda>, render: Renderer): (r: Outcome<string>)
    ensures lambdas == [] ==> r == Ok(fc)
    ensures |lambdas| == 1 ==> r == Splice(fc, lambdas[0], render)
    decreases |lambdas|
  {
    if lambdas == [] then Ok(fc)
    else
      match Splice(fc, lambdas[0], render)
      case Throw(m) => Throw(m)
      case Ok(next) => SpliceAll(next, lambdas[1..], render)
  }

  /** Splicing two lists one after the other is splicing their concatenation. */
  lemma {:induction false} SpliceAllAppend(fc: string, xs: seq<ParsedLambda>, ys: seq<ParsedLambda>, render: Renderer)
    ensures SpliceAll(fc, xs + ys, render) ==
      match SpliceAll(fc, xs, render)
      case Throw(m) => Throw(m)
      case Ok(mid) => SpliceAll(mid, ys, render)
    decreases |xs|
  {
    if xs == [] {
      assert xs + ys == ys;
    } else {
      assert (xs + ys)[0] == xs[0];
      assert (xs + ys)[1..] == xs[1..] + ys;
      match Splice(fc, xs[0], render)
      case Throw(m) =>
      case Ok(next) => SpliceAllAppend(next, xs[1..], ys, render);
    }
  }

  function InsertFromKey(l: ParsedLambda): int { l.insertFrom }

  /** The lambdas in the order they are spliced: by descending start, equal starts in input order. */
  function SpliceOrder(lambdas: seq<ParsedLambda>): (r: seq<ParsedLambda>)
    ensures multiset(r) == multiset(lambdas)
    ensures forall i, j :: 0 <= i < j < |r| ==> r[i].insertFrom >= r[j].insertFrom
  {
    var r := SortBy(lambdas, InsertFromKey, true);
    assert forall i, j :: 0 <= i < j < |r| ==> InOrder(r[i], r[j], InsertFromKey, true);
    r
  }

  /**
   * `replaceAll`: sort the lambdas by descending start and fold the text over them, so that
   * each splice leaves the positions of the lambdas still to come untouched.
   */
  method ReplaceAll(fileContent: string, lambdas: seq<ParsedLambda>, render: Renderer)
    returns (r: Outcome<string>)
    ensures r == SpliceAll(fileContent, SpliceOrder(lambdas), render)
    ensures lambdas == [] ==> r == Ok(fileContent)
  {
    var sorted := SpliceOrder(lambdas);
    var fc := fileContent;
    var i := 0;
    while i < |sorted|
      invariant 0 <= i <= |sorted|
      invariant SpliceAll(fileContent, sorted, render) == SpliceAll(fc, sorted[i..], render)
      decreases |sorted| - i
    {
      assert sorted[i..][0] == sorted[i];
      assert sorted[i..][1..] == sorted[i + 1..];
      var step := Splice(fc, sorted[i], render);
      if step.Throw? {
        return Throw(step.message);
      }
      fc := step.value;
      i := i + 1;
    }
    assert sorted[i..] == [];
    r := Ok(fc);
  }

  // ---------------------------------------------------------------------------
  // The number of lambda arguments
  // ---------------------------------------------------------------------------

  /** One call of the walk's callback: a lambda argument `k` raises the count to at least `k + 1`. */
  function CountStep(count: nat, n: Node): nat
  {
    if n.LambdaArgument? && n.number + 1 > count then n.number + 1 else count
  }

  /**
   * The count after the callback has seen `visits`, starting from `start`: the largest of `start`
   * and every `k + 1` of a visited lambda argument `k`.
   */
  function CountOver(start: nat, visits: seq<Node>): (r: nat)
    ensures r >= start
    ensures forall i :: 0 <= i < |visits| && visits[i].LambdaArgument? ==> r >= visits[i].number + 1
    ensures r == start || exists i :: 0 <= i < |visits| && visits[i].LambdaArgument? && r == visits[i].number + 1
    decreases |visits|
  {
    if visits == [] then start
    else
      var prefix := visits[..|visits| - 1];
      var last := visits[|visits| - 1];
      var before := CountOver(start, prefix);
      assert forall i :: 0 <= i < |prefix| ==> prefix[i] == visits[i];
      CountStep(before, last)
  }

  /** The declared parameters of the lambda itself: `& > lambdaParameters > lambdaParameter`. */
  const OwnParametersSel: Selector :=
    Scoped([Step(Child, Named("lambdaParameters")), Step(Child, Named("lambdaParameter"))])

  function DeclaredCount(lambda: Ast): nat
  {
    |All(lambda, OwnParametersSel)|
  }

  /** How many arguments the wrapper takes: the declared ones, or more if the tree uses more. */
  function Arity(lambda: Ast, parsed: Node): nat
  {
    CountOver(DeclaredCount(lambda), PreOrder(parsed))
  }

  /**
   * The count kept by the walk's callback: start from the declared parameters, then raise it
   * to `k + 1` for every lambda argument `k` met in the walk of the converted tree.
   */
  method CountArguments(lambda: Ast, parsed: Node) returns (count: nat)
    ensures count == Arity(lambda, parsed)
    ensures count >= DeclaredCount(lambda)
    ensures forall x :: x in PreOrder(parsed) && x.LambdaArgument? ==> count >= x.number + 1
  {
    var visits := PreOrder(parsed);
    count := DeclaredCount(lambda);
    var i := 0;
    while i < |visits|
      invariant 0 <= i <= |visits|
      invariant count == CountOver(DeclaredCount(lambda), visits[..i])
    {
      CountOverPrefix(DeclaredCount(lambda), visits, i);
      count := CountStep(count, visits[i]);
      i := i + 1;
    }
    assert visits[..i] == visits;
    forall x | x in visits && x.LambdaArgument?
      ensures count >= x.number + 1
    {
      var j :| 0 <= j < |visits| && visits[j] == x;
    }
  }

  /** One more step of the walk is one more `CountStep`. */
  lemma CountOverPrefix(start: nat, visits: seq<Node>, i: nat)
    requires i < |visits|
    ensures CountOver(start, visits[..i + 1]) == CountStep(CountOver(start, visits[..i]), visits[i])
  {
    assert visits[..i + 1][..i] == visits[..i];
  }

  // ---------------------------------------------------------------------------
  // The wrapper text
  // ---------------------------------------------------------------------------

  /** The wrapper opens a new argument list, or continues the trailed call's one after a comma. */
  function Opener(tail: bool): string
  {
    if tail then ", " else "("
  }

  /** The replacement text: `(withExpressionN(original, { code }))`, or `, withExpressionN(…))` when trailing. */
  function Wrapper(original: string, tail: bool, arity: nat, code: string): string
  {
    Opener(tail) + "withExpression" + NatToString(arity) + "(" + original + ", { " + code + " }))"
  }

  /**
   * The replacement for one lambda: its tree converted, and the arity its walk gives; a
   * conversion that throws fails the replacement. `processFileContent` converts as written.
   */
  function WrapperText(original: string, lambda: Ast, tail: bool, options: O.Options, rev: Revision): Outcome<string>
  {
    match Convert(lambda, options, rev)
    case Throw(m) => Throw(m)
    case Ok(parsed) => Ok(Wrapper(original, tail, Arity(lambda, parsed), ToCode(parsed)))
  }

  function Render(options: O.Options, rev: Revision): Renderer
  {
    (original: string, lambda: Ast, tail: bool) => WrapperText(original, lambda, tail, options, rev)
  }

  /**
   * A rendering fails exactly when the conversion throws, with its exception; otherwise it is the
   * wrapper around the converted tree's code. With the corrected rules it never fails.
   */
  lemma RenderOutcome(options: O.Options, rev: Revision, original: string, lambda: Ast, tail: bool)
    ensures Convert(lambda, options, rev).Throw? ==>
      Render(options, rev)(original, lambda, tail) == Throw(Convert(lambda, options, rev).message)
    ensures Convert(lambda, options, rev).Ok? ==>
      var parsed := Convert(lambda, options, rev).value;
      Render(options, rev)(original, lambda, tail) == Ok(Wrapper(original, tail, Arity(lambda, parsed), ToCode(parsed)))
    ensures rev == Corrected ==> Render(options, rev)(original, lambda, tail).Ok?
  {
  }

  // ---------------------------------------------------------------------------
  // Parentheses
  // ---------------------------------------------------------------------------

  /** Opening minus closing parentheses. */
  function Balance(s: string): int
    decreases |s|
  {
    if s == [] then 0
    else (if s[0] == '(' then 1 else if s[0] == ')' then -1 else 0) + Balance(s[1..])
  }

  lemma {:induction false} BalanceAppend(a: string, b: string)
    ensures Balance(a + b) == Balance(a) + Balance(b)
    decreases |a|
  {
    if a == [] {
      assert a + b == b;
    } else {
      assert (a + b)[0] == a[0];
      assert (a + b)[1..] == a[1..] + b;
      BalanceAppend(a[1..], b);
    }
  }

  lemma {:induction false} BalanceWhitespace(s: string)
    requires forall j :: 0 <= j < |s| ==> IsWhitespace(s[j])
    ensures Balance(s) == 0
    decreases |s|
  {
    if s != [] {
      CloseIsNotWhitespace();
      BalanceWhitespace(s[1..]);
    }
  }

  lemma BalanceTrim(s: string)
    ensures Balance(Trim(s)) == Balance(s)
  {
    var i, e := TrimBounds(s);
    assert s == s[..i] + Trim(s) + s[e..];
    BalanceWhitespace(s[..i]);
    BalanceWhitespace(s[e..]);
    BalanceAppend(s[..i], Trim(s));
    BalanceAppend(s[..i] + Trim(s), s[e..]);
  }

  lemma BalanceOf3(a: string, b: string, c: string)
    ensures Balance(a + b + c) == Balance(a) + Balance(b) + Balance(c)
  {
    BalanceAppend(a + b, c);
    BalanceAppend(a, b);
  }

  lemma OpenerBalance(tail: bool)
    ensures Balance(Opener(tail)) == (if tail then 0 else 1)
  {
    assert Balance(", ") == 0;
  }

  lemma ClosingBalance()
    ensures Balance(" }))") == -2
  {
    assert Balance("))") == -2;
  }

  lemma {:induction false} BalanceNoParentheses(s: string)
    requires '(' !in s && ')' !in s
    ensures Balance(s) == 0
    decreases |s|
  {
    if s != [] {
      assert s[0] in s;
      assert forall c :: c in s[1..] ==> c in s;
      BalanceNoParentheses(s[1..]);
    }
  }

  lemma MethodNameBalance()
    ensures Balance("withExpression") == 0
  {
    BalanceNoParentheses("withExpression");
  }

  lemma NameBalance(digits: string)
    requires AllDigits(digits)
    ensures Balance("withExpression" + digits + "(") == 1
  {
    MethodNameBalance();
    BalanceDigits(digits);
    BalanceOf3("withExpression", digits, "(");
  }

  /** The wrapper balances what it opens, and closes one more `)` when it continues a trailed call. */
  lemma WrapperBalance(original: string, tail: bool, arity: nat, code: string)
    ensures Balance(Wrapper(original, tail, arity, code)) ==
      Balance(original) + Balance(code) - (if tail then 1 else 0)
  {
    var name := "withExpression" + NatToString(arity) + "(";
    var head := Opener(tail) + name + original;
    var tailText := ", { " + code + " }))";
    assert Wrapper(original, tail, arity, code) == head + tailText;
    NameBalance(NatToString(arity));
    OpenerBalance(tail);
    BalanceOf3(Opener(tail), name, original);
    ClosingBalance();
    BalanceOf3(", { ", code, " }))");
    BalanceAppend(head, tailText);
  }

  /**
   * When `lambda` converts, every rendering of it succeeds and balances like its tree code, less
   * the `)` a trailing one closes.
   */
  lemma RenderBalance(options: O.Options, rev: Revision, lambda: Ast)
    requires Convert(lambda, options, rev).Ok?
    ensures forall o: string, t: bool ::
      Render(options, rev)(o, lambda, t).Ok? &&
      Balance(Render(options, rev)(o, lambda, t).value) ==
        Balance(o) + Balance(ToCode(Convert(lambda, options, rev).value)) - (if t then 1 else 0)
  {
    var parsed := Convert(lambda, options, rev).value;
    forall o: string, t: bool
      ensures Render(options, rev)(o, lambda, t).Ok?
      ensures Balance(Render(options, rev)(o, lambda, t).value) == Balance(o) + Balance(ToCode(parsed)) - (if t then 1 else 0)
    {
      WrapperBalance(o, t, Arity(lambda, parsed), ToCode(parsed));
    }
  }

  lemma {:induction false} BalanceDigits(s: string)
    requires AllDigits(s)
    ensures Balance(s) == 0
    decreases |s|
  {
    if s != [] {
      BalanceDigits(s[1..]);
    }
  }

  /** The text a trailing lambda's range adds in front of the lambda: its `)` and whitespace. */
  lemma WidenedBalance(fc: string, from: nat)
    requires from <= |fc|
    requires from < |fc| ==> fc[from] != ')'
    ensures RangeStart(fc, from) <= from
    ensures Balance(fc[RangeStart(fc, from)..from]) == (if IsTrailing(fc, from) then -1 else 0)
  {
    var start := RangeStart(fc, from);
    if IsTrailing(fc, from) {
      var k := TrailingHasClose(fc, from);
      TrailingStart(fc, from, k);
      var gap := fc[start..from];
      assert gap[0] == ')' && gap[1..] == fc[start + 1..from];
      assert forall j :: 0 <= j < |gap[1..]| ==> gap[1..][j] == fc[start + 1 + j];
      BalanceWhitespace(gap[1..]);
    } else {
      assert fc[start..from] == [];
    }
  }

  /** The widened range starts at the `)` that only whitespace separates from the lambda. */
  lemma TrailingStart(fc: string, from: nat, k: int)
    requires from <= |fc| && IsTrailing(fc, from) && ClosesBefore(fc, from, k)
    requires from < |fc| ==> fc[from] != ')'
    ensures RangeStart(fc, from) == k
  {
    var start := RangeStart(fc, from);
    CloseIsNotWhitespace();
    assert fc[k] == ')' && fc[start] == ')';
  }

  /**
   * Splicing a lambda whose every rendering balances like `code`, less the `)` a trailing one
   * closes, changes the text's parenthesis balance by exactly that of `code`. The lambda's text
   * is assumed not to begin with `)`, as a lambda literal begins with `{`.
   */
  lemma SpliceBalance(fc: string, lambda: ParsedLambda, render: Renderer, code: string)
    requires lambda.insertFrom <= lambda.insertTo <= |fc|
    requires lambda.insertFrom < |fc| ==> fc[lambda.insertFrom] != ')'
    requires forall o: string, t: bool ::
      render(o, lambda.astTree, t).Ok? &&
      Balance(render(o, lambda.astTree, t).value) == Balance(o) + Balance(code) - (if t then 1 else 0)
    ensures Splice(fc, lambda, render).Ok?
    ensures Balance(Splice(fc, lambda, render).value) == Balance(fc) + Balance(code)
  {
    var from := lambda.insertFrom;
    var to := lambda.insertTo;
    var start := RangeStart(fc, from);
    var text := Rendering(fc, lambda, render).value;
    SpliceValue(fc, lambda, render);
    BalanceOf3(fc[..start], text, fc[to..]);
    BalanceTrim(fc[from..to]);
    WidenedBalance(fc, from);
    BalanceAround(fc, start, from, to);
  }

  /** The spliced text, when the span lies within the text and the lambda renders. */
  lemma SpliceValue(fc: string, lambda: ParsedLambda, render: Renderer)
    requires lambda.insertFrom <= lambda.insertTo <= |fc|
    requires Rendering(fc, lambda, render).Ok?
    ensures Splice(fc, lambda, render) == Ok(fc[..RangeStart(fc, lambda.insertFrom)]
      + Rendering(fc, lambda, render).value + fc[lambda.insertTo..])
  {
  }

  lemma BalanceAround(fc: string, start: nat, from: nat, to: nat)
    requires start <= from <= to <= |fc|
    ensures Balance(fc) == Balance(fc[..start]) + Balance(fc[start..from]) + Balance(fc[from..to]) + Balance(fc[to..])
  {
    assert fc == fc[..start] + fc[start..from] + fc[from..];
    assert fc[from..] == fc[from..to] + fc[to..];
    BalanceOf3(fc[..start], fc[start..from], fc[from..]);
    BalanceAppend(fc[from..to], fc[to..]);
  }

  /**
   * Rewriting one lambda whose tree converts changes the file's parenthesis balance by exactly
   * that of its tree code; a conversion that throws makes the rewrite throw the same exception.
   */
  lemma RewriteBalance(fc: string, lambda: ParsedLambda, options: O.Options, rev: Revision)
    requires lambda.insertFrom <= lambda.insertTo <= |fc|
    requires lambda.insertFrom < |fc| ==> fc[lambda.insertFrom] != ')'
    ensures Convert(lambda.astTree, options, rev).Throw? ==>
      Splice(fc, lambda, Render(options, rev)) == Throw(Convert(lambda.astTree, options, rev).message)
    ensures Convert(lambda.astTree, options, rev).Ok? ==>
      Splice(fc, lambda, Render(options, rev)).Ok? &&
      Balance(Splice(fc, lambda, Render(options, rev)).value) ==
        Balance(fc) + Balance(ToCode(Convert(lambda.astTree, options, rev).value))
  {
    RenderOutcome(options, rev, Trim(fc[lambda.insertFrom..lambda.insertTo]), lambda.astTree,
      IsTrailing(fc, lambda.insertFrom));
    if Convert(lambda.astTree, options, rev).Ok? {
      RenderBalance(options, rev, lambda.astTree);
      SpliceBalance(fc, lambda, Render(options, rev), ToCode(Convert(lambda.astTree, options, rev).value));
    }
  }

  // ---------------------------------------------------------------------------
  // The whole file
  // ---------------------------------------------------------------------------

  /** The positioned records of lambdas that all have a position. */
  function Positioned(lambdas: seq<Ast>): (r: seq<ParsedLambda>)
    requires forall i :: 0 <= i < |lambdas| ==> SpanOf(lambdas[i]).Some?
    ensures |r| == |lambdas|
    ensures forall i :: 0 <= i < |lambdas| ==>
      (r[i].astTree == lambdas[i] &&
       r[i].insertFrom == SpanOf(lambdas[i]).value.start && r[i].insertTo == SpanOf(lambdas[i]).value.stop)
  {
    seq(|lambdas|, i requires 0 <= i < |lambdas| =>
      ParsedLambda(lambdas[i], SpanOf(lambdas[i]).value.start, SpanOf(lambdas[i]).value.stop))
  }

  /** The text the parser reads: the source with every ` with Expression` stub removed. */
  function WithoutStubs(fileContent: string): string
  {
    Replace(fileContent, " with Expression", "")
  }

  /**
   * What `processFileContent` yields: the rewritten text, `None` when no lambda is selected,
   * or the failure of the lookup, of a lambda without a position, of a splice or of a conversion.
   */
  function Processed(fileContent: string, options: O.Options, parse: string -> Ast): (r: Outcome<Option<string>>)
    ensures var selected := Selected(parse(WithoutStubs(fileContent)), options.onlyIfAnnotationPresent);
      && (r == Ok(None) <==> selected.Ok? && selected.value == [])
      && (selected.Throw? ==> r == Throw(selected.message))
      && (selected.Ok? && (exists i :: 0 <= i < |selected.value| && SpanOf(selected.value[i]).None?) ==>
            r == Throw(None))
  {
    var text := WithoutStubs(fileContent);
    match Selected(parse(text), options.onlyIfAnnotationPresent)
    case Throw(m) => Throw(m)
    case Ok(lambdas) =>
      if exists i :: 0 <= i < |lambdas| && SpanOf(lambdas[i]).None? then Throw(None)
      else if lambdas == [] then Ok(None)
      else
        match SpliceAll(text, SpliceOrder(Positioned(lambdas)), Render(options, AsWritten))
        case Throw(m) => Throw(m)
        case Ok(out) => Ok(Some(out))
  }

  /**
   * `processFileContent`: strip the stubs, find the lambdas to rewrite and splice each one;
   * `None` when there is none. The parser is a parameter.
   */
  method ProcessFileContent(fileContent: string, options: O.Options, parse: string -> Ast)
    returns (r: Outcome<Option<string>>)
    ensures r == Processed(fileContent, options, parse)
  {
    var text := WithoutStubs(fileContent);
    var ast := parse(text);
    var found := SearchLambdas(ast, options.onlyIfAnnotationPresent);
    if found.Throw? {
      ProcessedFails(fileContent, options, parse);
      return Throw(found.message);
    }
    var lambdas := found.value;
    var selected := Selected(ast, options.onlyIfAnnotationPresent).value;
    ProcessedLocated(fileContent, options, parse, selected);
    if lambdas == [] {
      return Ok(None);
    }
    assert lambdas == Positioned(selected);
    var out := ReplaceAll(text, lambdas, Render(options, AsWritten));
    if out.Throw? {
      return Throw(out.message);
    }
    r := Ok(Some(out.value));
  }

  /** When the lookup or the positions fail, so does the whole file. */
  lemma ProcessedFails(fileContent: string, options: O.Options, parse: string -> Ast)
    requires var selected := Selected(parse(WithoutStubs(fileContent)), options.onlyIfAnnotationPresent);
      selected.Ok? ==> exists i :: 0 <= i < |selected.value| && SpanOf(selected.value[i]).None?
    ensures var selected := Selected(parse(WithoutStubs(fileContent)), options.onlyIfAnnotationPresent);
      Processed(fileContent, options, parse) == if selected.Throw? then Throw(selected.message) else Throw(None)
  {
  }

  /** When every selected lambda has a position, the file is the splice of all of them, if any. */
  lemma ProcessedLocated(fileContent: string, options: O.Options, parse: string -> Ast, selected: seq<Ast>)
    requires Selected(parse(WithoutStubs(fileContent)), options.onlyIfAnnotationPresent) == Ok(selected)
    requires forall i :: 0 <= i < |selected| ==> SpanOf(selected[i]).Some?
    ensures Processed(fileContent, options, parse) ==
      if selected == [] then Ok(None)
      else
        match SpliceAll(WithoutStubs(fileContent), SpliceOrder(Positioned(selected)), Render(options, AsWritten))
        case Throw(m) => Throw(m)
        case Ok(out) => Ok(Some(out))
  {
    assert !exists i :: 0 <= i < |selected| && SpanOf(selected[i]).None?;
  }
}
