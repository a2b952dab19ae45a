/**
 * The tree queries the core asks of a syntax tree: the i-th child (`node[i]`), the first match of a
 * selector (`node["x"]`), all matches in document order (`all("x")`), and the text of a node.
 *
 * Selectors are CSS-like: a chain of tests on node descriptions (or the `.terminal` class) joined by
 * the descendant combinator (a space) or the child combinator (`>`). A selector that starts with `&`
 * is anchored at the node the query is asked on; any other selector may match that node itself or
 * any node below it.
 */
module Selectors {
  import opened Wrappers
  import opened Nodes

  /** A simple selector: a production name, or `.terminal` (any token). */
  datatype Test = Named(name: string) | AnyTerminal

  datatype Combinator = Descendant | Child

  datatype Step = Step(combinator: Combinator, test: Test)

  /**
   * `Anywhere(t, rest)` is a selector `t rest...` (its first test matches the queried node or a node
   * below it); `Scoped(steps)` is `& steps...`.
   */
  datatype Selector = Anywhere(first: Test, rest: seq<Step>) | Scoped(steps: seq<Step>)

  predicate Passes(a: Ast, t: Test)
  {
    match t
    case Named(name) => Description(a) == name
    case AnyTerminal => a.Terminal?
  }

  /** The node followed by every node below it, in pre-order (document order). */
  function SelfAndDescendants(a: Ast): (r: seq<Ast>)
    ensures |r| >= 1 && r[0] == a
    decreases a
  {
    match a
    case Inner(_, cs, _) => [a] + DescendantsOfAll(cs)
    case _ => [a]
  }

  function DescendantsOfAll(cs: seq<Ast>): seq<Ast>
    decreases cs
  {
    if cs == [] then [] else SelfAndDescendants(cs[0]) + DescendantsOfAll(cs[1..])
  }

  /** Every node strictly below `a`, in document order. */
  function Descendants(a: Ast): (r: seq<Ast>)
    ensures a.Inner? ==> r == DescendantsOfAll(a.children)
    ensures !a.Inner? ==> r == []
  {
    SelfAndDescendants(a)[1..]
  }

  /**
   * The number of syntax nodes in a tree that are still to be translated: a node the converter has
   * already translated weighs nothing.
   */
  function AstSize(a: Ast): nat
    decreases a
  {
    match a
    case Inner(_, cs, _) => 1 + SizeOfAll(cs)
    case Terminal(_, _, _) => 1
    case Converted(_) => 0
  }

  function SizeOfAll(cs: seq<Ast>): nat
    decreases cs
  {
    if cs == [] then 0 else AstSize(cs[0]) + SizeOfAll(cs[1..])
  }

  lemma {:induction false} SelfAndDescendantsSize(a: Ast, x: Ast)
    requires x in SelfAndDescendants(a)
    ensures AstSize(x) <= AstSize(a)
    decreases a
  {
    if x != a {
      DescendantsOfAllSize(a.children, x);
    }
  }

  lemma {:induction false} DescendantsOfAllSize(cs: seq<Ast>, x: Ast)
    requires x in DescendantsOfAll(cs)
    ensures AstSize(x) <= SizeOfAll(cs)
    decreases cs
  {
    if x in SelfAndDescendants(cs[0]) {
      SelfAndDescendantsSize(cs[0], x);
    } else {
      DescendantsOfAllSize(cs[1..], x);
    }
  }

  /** A node strictly below another is a strictly smaller tree. */
  lemma DescendantSmaller(a: Ast, x: Ast)
    requires x in Descendants(a)
    ensures AstSize(x) < AstSize(a)
  {
    DescendantsOfAllSize(a.children, x);
  }

  /** Below-or-self is transitive. */
  lemma {:induction false} SelfAndDescendantsTransitive(a: Ast, m: Ast, x: Ast)
    requires m in SelfAndDescendants(a) && x in SelfAndDescendants(m)
    ensures x in SelfAndDescendants(a)
    decreases a
  {
    if m != a {
      DescendantsOfAllTransitive(a.children, m, x);
    }
  }

  lemma {:induction false} DescendantsOfAllTransitive(cs: seq<Ast>, m: Ast, x: Ast)
    requires m in DescendantsOfAll(cs) && x in SelfAndDescendants(m)
    ensures x in DescendantsOfAll(cs)
    decreases cs
  {
    if m in SelfAndDescendants(cs[0]) {
      SelfAndDescendantsTransitive(cs[0], m, x);
    } else {
      DescendantsOfAllTransitive(cs[1..], m, x);
    }
  }

  /** Strictly-below is transitive. */
  lemma DescendantsTransitive(a: Ast, m: Ast, x: Ast)
    requires m in Descendants(a) && x in Descendants(m)
    ensures x in Descendants(a)
  {
    DescendantsOfAllTransitive(a.children, m, x);
  }

  /** A child is below its parent, hence smaller. */
  lemma ChildSmaller(a: Ast, c: Ast)
    requires c in ChildrenOf(a)
    ensures c in Descendants(a) && AstSize(c) < AstSize(a)
  {
    ChildInDescendants(a.children, c);
    DescendantSmaller(a, c);
  }

  lemma {:induction false} ChildInDescendants(cs: seq<Ast>, c: Ast)
    requires c in cs
    ensures c in DescendantsOfAll(cs)
    decreases cs
  {
    if c != cs[0] {
      ChildInDescendants(cs[1..], c);
    }
  }

  /** Dropping children from the end never makes a list of trees bigger. */
  lemma {:induction false} SizeOfPrefix(cs: seq<Ast>, k: nat)
    requires k <= |cs|
    ensures SizeOfAll(cs[..k]) <= SizeOfAll(cs)
    decreases k
  {
    if k > 0 {
      assert cs[..k][1..] == cs[1..][..k - 1];
      SizeOfPrefix(cs[1..], k - 1);
    }
  }

  /** The size of a list of trees splits at any point. */
  lemma {:induction false} SizeOfSplit(cs: seq<Ast>, k: nat)
    requires k <= |cs|
    ensures SizeOfAll(cs) == SizeOfAll(cs[..k]) + SizeOfAll(cs[k..])
    decreases k
  {
    if k > 0 {
      assert cs[..k][1..] == cs[1..][..k - 1];
      assert cs[k..] == cs[1..][k - 1..];
      SizeOfSplit(cs[1..], k - 1);
    }
  }

  /** The nodes of `xs` that pass `t`, in order. */
  function Keep(xs: seq<Ast>, t: Test): (r: seq<Ast>)
    ensures |r| <= |xs|
    ensures forall x :: x in r <==> x in xs && Passes(x, t)
  {
    if xs == [] then []
    else if Passes(xs[0], t) then [xs[0]] + Keep(xs[1..], t)
    else Keep(xs[1..], t)
  }

  function Candidates(c: Ast, comb: Combinator): seq<Ast>
  {
    match comb
    case Child => ChildrenOf(c)
    case Descendant => Descendants(c)
  }

  /** One selector step applied to each context node in turn. */
  function Advance(contexts: seq<Ast>, step: Step): (r: seq<Ast>)
    ensures forall x :: x in r ==> Passes(x, step.test)
  {
    if contexts == [] then []
    else Keep(Candidates(contexts[0], step.combinator), step.test) + Advance(contexts[1..], step)
  }

  function Walk(contexts: seq<Ast>, steps: seq<Step>): (r: seq<Ast>)
    ensures steps == [] ==> r == contexts
    ensures steps != [] ==> forall x :: x in r ==> Passes(x, steps[|steps| - 1].test)
    decreases |steps|
  {
    if steps == [] then contexts
    else
      var next := Advance(contexts, steps[0]);
      if |steps| == 1 then next else Walk(next, steps[1..])
  }

  /** The last test of a selector: every match passes it. */
  function LastTest(sel: Selector): Option<Test>
  {
    match sel
    case Anywhere(t, rest) => if rest == [] then Some(t) else Some(rest[|rest| - 1].test)
    case Scoped(steps) => if steps == [] then None else Some(steps[|steps| - 1].test)
  }

  /** `all(selector)`: every match, in document order. */
  function All(root: Ast, sel: Selector): (r: seq<Ast>)
    ensures LastTest(sel).Some? ==> forall x :: x in r ==> Passes(x, LastTest(sel).value)
  {
    match sel
    case Anywhere(t, rest) => Walk(Keep(SelfAndDescendants(root), t), rest)
    case Scoped(steps) => Walk([root], steps)
  }

  /** `node[selector]`: the first match, if any. */
  function First(root: Ast, sel: Selector): (r: Option<Ast>)
    ensures r.Some? <==> |All(root, sel)| > 0
    ensures r.Some? ==> r.value == All(root, sel)[0]
  {
    var matches := All(root, sel);
    if |matches| > 0 then Some(matches[0]) else None
  }

  /** `node[i]`: the i-th child; `None` stands for the index-out-of-bounds failure. */
  function ChildAt(a: Ast, i: int): (r: Option<Ast>)
    ensures r.Some? <==> 0 <= i < |ChildrenOf(a)|
    ensures r.Some? ==> r.value == ChildrenOf(a)[i]
  {
    var cs := ChildrenOf(a);
    if 0 <= i < |cs| then Some(cs[i]) else None
  }

  /** `flattenTerminal()`: the tokens of a node, in document order. */
  function Terminals(a: Ast): (r: seq<Ast>)
    ensures forall x :: x in r ==> x.Terminal?
  {
    Keep(SelfAndDescendants(a), AnyTerminal)
  }

  /** `[".terminal"]`: the first token of a node, if any. */
  function FirstTerminal(a: Ast): (r: Option<Ast>)
    ensures r.None? <==> Terminals(a) == []
    ensures r.Some? ==> r.value.Terminal? && r.value == Terminals(a)[0]
  {
    var sel := Anywhere(AnyTerminal, []);
    assert All(a, sel) == Terminals(a);
    First(a, sel)
  }

  /** `node["name"]`: the first node named `name`, the node itself included. */
  function FirstNamed(a: Ast, name: string): (r: Option<Ast>)
    ensures r.Some? ==> r.value in SelfAndDescendants(a) && Description(r.value) == name
    ensures r == First(a, Named1(name))
  {
    assert All(a, Named1(name)) == Keep(SelfAndDescendants(a), Named(name));
    First(a, Named1(name))
  }

  /** `text`: the text of a node's first token, or "" when it has none. */
  function TextOf(a: Ast): string
  {
    var ts := Terminals(a);
    if |ts| > 0 then ts[0].text else ""
  }

  /** A selector naming a single production, matching anywhere (`all("statement")`). */
  function Named1(name: string): Selector
  {
    Anywhere(Named(name), [])
  }

  /** A token is its own text. */
  lemma TerminalText(kind: string, text: string, channel: Channel)
    ensures TextOf(Terminal(kind, text, channel)) == text
  {
  }

  /** Filtering distributes over concatenation. */
  lemma {:induction false} KeepAppend(xs: seq<Ast>, ys: seq<Ast>, t: Test)
    ensures Keep(xs + ys, t) == Keep(xs, t) + Keep(ys, t)
    decreases |xs|
  {
    if xs != [] {
      assert (xs + ys)[0] == xs[0] && (xs + ys)[1..] == xs[1..] + ys;
      KeepAppend(xs[1..], ys, t);
      if Passes(xs[0], t) {
        calc {
          Keep(xs + ys, t);
          [xs[0]] + Keep(xs[1..] + ys, t);
          [xs[0]] + (Keep(xs[1..], t) + Keep(ys, t));
          ([xs[0]] + Keep(xs[1..], t)) + Keep(ys, t);
        }
      }
    } else {
      assert xs + ys == ys;
    }
  }

  /** The nodes below a list of trees are those below each tree, in order. */
  lemma {:induction false} DescendantsOfAllAppend(xs: seq<Ast>, ys: seq<Ast>)
    ensures DescendantsOfAll(xs + ys) == DescendantsOfAll(xs) + DescendantsOfAll(ys)
    decreases |xs|
  {
    if xs != [] {
      assert (xs + ys)[0] == xs[0] && (xs + ys)[1..] == xs[1..] + ys;
      DescendantsOfAllAppend(xs[1..], ys);
      calc {
        DescendantsOfAll(xs + ys);
        SelfAndDescendants(xs[0]) + DescendantsOfAll(xs[1..] + ys);
        SelfAndDescendants(xs[0]) + (DescendantsOfAll(xs[1..]) + DescendantsOfAll(ys));
        (SelfAndDescendants(xs[0]) + DescendantsOfAll(xs[1..])) + DescendantsOfAll(ys);
      }
    } else {
      assert xs + ys == ys;
    }
  }

  /** Nothing passes: nothing is kept. */
  lemma KeepNone(xs: seq<Ast>, t: Test)
    requires forall x :: x in xs ==> !Passes(x, t)
    ensures Keep(xs, t) == []
  {
  }

  /** When `xs[k]` is the first to pass, it heads what is kept. */
  lemma KeepFrom(xs: seq<Ast>, t: Test, k: nat)
    requires k < |xs| && Passes(xs[k], t)
    requires forall x :: x in xs[..k] ==> !Passes(x, t)
    ensures Keep(xs, t) == [xs[k]] + Keep(xs[k + 1..], t)
  {
    assert xs == xs[..k] + xs[k..];
    KeepAppend(xs[..k], xs[k..], t);
    KeepNone(xs[..k], t);
  }

  /** `node["name"]` is the first node of that name in document order. */
  lemma FirstNamedAt(a: Ast, name: string, k: nat)
    requires k < |SelfAndDescendants(a)| && Description(SelfAndDescendants(a)[k]) == name
    requires forall x :: x in SelfAndDescendants(a)[..k] ==> Description(x) != name
    ensures FirstNamed(a, name) == Some(SelfAndDescendants(a)[k])
  {
    KeepFrom(SelfAndDescendants(a), Named(name), k);
  }

  /** `node["name"]` is null when no node has that name. */
  lemma FirstNamedNone(a: Ast, name: string)
    requires forall x :: x in SelfAndDescendants(a) ==> Description(x) != name
    ensures FirstNamed(a, name) == None
  {
    KeepNone(SelfAndDescendants(a), Named(name));
  }

  lemma DescendantsOfCons(x: Ast, rest: seq<Ast>)
    ensures DescendantsOfAll([x] + rest) == SelfAndDescendants(x) + DescendantsOfAll(rest)
  {
    assert ([x] + rest)[0] == x && ([x] + rest)[1..] == rest;
  }

  lemma DescendantsOfOne(x: Ast)
    ensures DescendantsOfAll([x]) == SelfAndDescendants(x)
  {
    assert [x][1..] == [];
  }

  /** A node holding a single token: the node, then the token; its text is the token's. */
  lemma TokenNode(a: Ast)
    requires a.Inner? && |a.children| == 1 && a.children[0].Terminal?
    ensures SelfAndDescendants(a) == [a, a.children[0]]
    ensures Terminals(a) == [a.children[0]] && TextOf(a) == a.children[0].text
  {
    assert a.children == [a.children[0]];
    DescendantsOfOne(a.children[0]);
    assert Keep([a, a.children[0]], AnyTerminal) == Keep([a.children[0]], AnyTerminal);
  }

  /** A plain selector may match the node it is asked on: it comes first then. */
  lemma {:induction false} FirstMatchesSelf(a: Ast, name: string)
    requires Description(a) == name
    ensures First(a, Named1(name)) == Some(a)
  {
    var all := SelfAndDescendants(a);
    assert all[0] == a;
    assert Keep(all, Named(name)) == [a] + Keep(all[1..], Named(name));
  }
}
