/**
 * `collapse`: the normaliser run on a lambda's statement before translation. It drops tokens on
 * hidden channels (whitespace, comments), keeps a node whose only child is a token, replaces a node
 * with a single non-token child by that child's collapse, rebuilds a node with several children from
 * the children that survive, and drops everything else.
 */
module Collapse {
  import opened Wrappers
  import opened Nodes

  function Collapse(a: Ast): (r: Option<Ast>)
    ensures r.Some? ==> !r.value.Converted?
    ensures r.Some? && a.Inner? && |a.children| > 1 ==>
      r.value.Inner? && r.value.description == a.description && r.value.span == a.span
      && |r.value.children| <= |a.children|
    decreases a
  {
    match a
    case Terminal(_, _, channel) => if channel != DefaultChannel then None else Some(a)
    case Inner(description, cs, span) =>
      if |cs| == 1 && cs[0].Terminal? then Some(a)
      else if |cs| == 1 then Collapse(cs[0])
      else if |cs| > 1 then Some(Inner(description, CollapseAll(cs), span))
      else None
    case Converted(_) => None
  }

  /** `children.mapNotNull { it.collapse() }`. */
  function CollapseAll(cs: seq<Ast>): (r: seq<Ast>)
    ensures |r| <= |cs|
    decreases cs
  {
    if cs == [] then []
    else
      match Collapse(cs[0])
      case Some(c) => [c] + CollapseAll(cs[1..])
      case None => CollapseAll(cs[1..])
  }

  /** The default-channel tokens of a tree, in document order: the text a reader sees. */
  function Tokens(a: Ast): seq<Ast>
    decreases a
  {
    match a
    case Terminal(_, _, channel) => if channel == DefaultChannel then [a] else []
    case Inner(_, cs, _) => TokensOfAll(cs)
    case Converted(_) => []
  }

  function TokensOfAll(cs: seq<Ast>): seq<Ast>
    decreases cs
  {
    if cs == [] then [] else Tokens(cs[0]) + TokensOfAll(cs[1..])
  }

  /**
   * Collapsing never loses, adds or reorders a visible token: a tree that collapses to nothing
   * has none, and a collapsed tree has exactly the tokens of the original.
   */
  lemma {:induction false} CollapseKeepsTokens(a: Ast)
    ensures Collapse(a).None? ==> Tokens(a) == []
    ensures Collapse(a).Some? ==> Tokens(Collapse(a).value) == Tokens(a)
    decreases a
  {
    match a
    case Terminal(_, _, _) =>
    case Converted(_) =>
    case Inner(description, cs, span) =>
      if |cs| == 1 && cs[0].Terminal? {
      } else if |cs| == 1 {
        CollapseKeepsTokens(cs[0]);
        assert TokensOfAll(cs) == Tokens(cs[0]) + TokensOfAll(cs[1..]);
      } else if |cs| > 1 {
        CollapseAllKeepsTokens(cs);
      }
  }

  lemma {:induction false} CollapseAllKeepsTokens(cs: seq<Ast>)
    ensures TokensOfAll(CollapseAll(cs)) == TokensOfAll(cs)
    decreases cs
  {
    if cs != [] {
      CollapseKeepsTokens(cs[0]);
      CollapseAllKeepsTokens(cs[1..]);
      match Collapse(cs[0])
      case Some(c) =>
        assert CollapseAll(cs) == [c] + CollapseAll(cs[1..]);
        assert ([c] + CollapseAll(cs[1..]))[1..] == CollapseAll(cs[1..]);
      case None =>
    }
  }

  /**
   * Hidden tokens survive only as the single child of a wrapper node, which collapse keeps as is;
   * everywhere else they are gone.
   */
  predicate NoStrayHidden(a: Ast)
    decreases a
  {
    match a
    case Terminal(_, _, channel) => channel == DefaultChannel
    case Inner(_, cs, _) => (|cs| == 1 && cs[0].Terminal?) || AllNoStrayHidden(cs)
    case Converted(_) => true
  }

  predicate AllNoStrayHidden(cs: seq<Ast>)
    decreases cs
  {
    cs == [] || (NoStrayHidden(cs[0]) && AllNoStrayHidden(cs[1..]))
  }

  lemma {:induction false} CollapseDropsHidden(a: Ast)
    ensures Collapse(a).Some? ==> NoStrayHidden(Collapse(a).value)
    decreases a
  {
    match a
    case Terminal(_, _, _) =>
    case Converted(_) =>
    case Inner(description, cs, span) =>
      if |cs| == 1 && cs[0].Terminal? {
      } else if |cs| == 1 {
        CollapseDropsHidden(cs[0]);
      } else if |cs| > 1 {
        CollapseAllDropsHidden(cs);
      }
  }

  lemma {:induction false} CollapseAllDropsHidden(cs: seq<Ast>)
    ensures AllNoStrayHidden(CollapseAll(cs))
    decreases cs
  {
    if cs != [] {
      CollapseDropsHidden(cs[0]);
      CollapseAllDropsHidden(cs[1..]);
      match Collapse(cs[0])
      case Some(c) =>
        assert ([c] + CollapseAll(cs[1..]))[1..] == CollapseAll(cs[1..]);
      case None =>
    }
  }
}
