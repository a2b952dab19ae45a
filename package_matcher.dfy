/**
 * Which source directories are rewritten: a package pattern `a.b` accepts the directory
 * `…/a/b`, and `a.b.*` also every directory below it.
 */
module PackageMatching {
  import opened Wrappers
  import opened Text

  /**
   * An absolute path as its name components, root first. The root itself has no components;
   * a file's directory is its path without the last component.
   */
  type Path = seq<string>

  /** `path.parent`: the path without its last component; the root has no parent. */
  function Parent(p: Path): (r: Option<Path>)
    ensures p == [] <==> r.None?
    ensures r.Some? ==> |r.value| == |p| - 1 && r.value == p[..|p| - 1]
  {
    if p == [] then None else Some(p[..|p| - 1])
  }

  /** The pieces of `s` between `/` separators, empty pieces dropped, as a path string is read. */
  function NameComponents(s: string): (r: seq<string>)
    ensures forall i :: 0 <= i < |r| ==> r[i] != ""
  {
    NonEmpty(Split(s, "/"))
  }

  function NonEmpty(xs: seq<string>): (r: seq<string>)
    ensures forall i :: 0 <= i < |r| ==> r[i] != ""
    ensures (forall i :: 0 <= i < |xs| ==> xs[i] != "") ==> r == xs
    decreases |xs|
  {
    if xs == [] then []
    else if xs[0] == "" then NonEmpty(xs[1..])
    else [xs[0]] + NonEmpty(xs[1..])
  }

  /** `p.endsWith(q)` for a relative `q`: its components are the last ones of `p`; an empty `q` ends no path. */
  predicate PathEndsWith(p: Path, q: seq<string>)
  {
    q != [] && |q| <= |p| && p[|p| - |q|..] == q
  }

  /** A pattern, read once: its components, and whether it ends in the `.*` wildcard. */
  datatype PackageMatcher = PackageMatcher(asPath: seq<string>, startsWith: bool)

  /** `PackageMatcher(pattern)`: drop a trailing `.*`, turn the dots into separators and read it as a path. */
  function NewMatcher(pattern: string): PackageMatcher
  {
    PackageMatcher(NameComponents(Replace(RemoveSuffix(pattern, ".*"), ".", "/")),
      EndsWith(pattern, ".*"))
  }

  /**
   * `test(t)`: a missing path is rejected; a path ending in the pattern's components is
   * accepted; otherwise a wildcard pattern tries the parent.
   */
  predicate Test(m: PackageMatcher, t: Option<Path>)
    decreases if t.Some? then |t.value| + 1 else 0
  {
    if t.None? then false
    else if PathEndsWith(t.value, m.asPath) then true
    else if m.startsWith then Test(m, Parent(t.value))
    else false
  }

  /** Without the wildcard, a path is accepted iff it ends with the pattern; its ancestors are never looked at. */
  lemma ExactPattern(m: PackageMatcher, t: Option<Path>)
    requires !m.startsWith
    ensures Test(m, t) <==> t.Some? && PathEndsWith(t.value, m.asPath)
  {
  }

  /** With the wildcard, a path is accepted iff it or one of its ancestors ends with the pattern. */
  lemma {:induction false} WildcardPattern(m: PackageMatcher, p: Path)
    requires m.startsWith
    ensures Test(m, Some(p)) <==> exists k :: 0 <= k <= |p| && PathEndsWith(p[..k], m.asPath)
    decreases |p|
  {
    if PathEndsWith(p, m.asPath) {
      assert p[..|p|] == p;
    } else if p == [] {
      assert forall k :: 0 <= k <= |p| ==> p[..k] == p;
    } else {
      var q := p[..|p| - 1];
      WildcardPattern(m, q);
      assert forall k :: 0 <= k <= |q| ==> q[..k] == p[..k];
      if exists k :: 0 <= k <= |p| && PathEndsWith(p[..k], m.asPath) {
        var k :| 0 <= k <= |p| && PathEndsWith(p[..k], m.asPath);
        assert k != |p| by {
          assert p[..|p|] == p;
        }
        assert PathEndsWith(q[..k], m.asPath);
      }
    }
  }

  /** A missing path is never accepted, which also ends the climb past the root. */
  lemma NoPath(m: PackageMatcher)
    ensures !Test(m, None)
  {
  }

  /** Dots of a package name joined become separators. */
  lemma {:induction false} DotsToSeparators(parts: seq<string>)
    requires |parts| >= 1
    requires forall i :: 0 <= i < |parts| ==> '.' !in parts[i]
    ensures Replace(Join(parts, "."), ".", "/") == Join(parts, "/")
    decreases |parts|
  {
    if |parts| == 1 {
      var p := parts[0];
      forall i | 0 <= i <= |p| - 1
        ensures !OccursAt(p, ".", i)
      {
        assert p[i] in p;
        assert p[i..i + 1] == [p[i]];
      }
      ReplaceAbsent(p, ".", "/");
    } else {
      DotsToSeparators(parts[1..]);
      ReplaceAtFirst(parts[0], ".", "/", Join(parts[1..], "."));
    }
  }

  /** No piece of a package name has a dot, so a name never ends in `.*`. */
  lemma NoWildcardSuffix(parts: seq<string>)
    requires |parts| >= 1
    requires forall i :: 0 <= i < |parts| ==> parts[i] != "" && '.' !in parts[i] && '*' !in parts[i]
    ensures !EndsWith(Join(parts, "."), ".*")
  {
    JoinEndsWithLast(parts);
    var s := Join(parts, ".");
    var last := parts[|parts| - 1];
    assert last[|last| - 1] in last;
    assert s[|s| - 1] == last[|last| - 1];
    assert |s| >= 2 ==> s[|s| - 2..][1] == s[|s| - 1];
  }

  lemma {:induction false} JoinEndsWithLast(parts: seq<string>)
    requires |parts| >= 1
    ensures var s := Join(parts, ".");
      |s| >= |parts[|parts| - 1]| && s[|s| - |parts[|parts| - 1]|..] == parts[|parts| - 1]
    decreases |parts|
  {
    if |parts| > 1 {
      JoinEndsWithLast(parts[1..]);
      var s := Join(parts, ".");
      var rest := Join(parts[1..], ".");
      assert s == parts[0] + "." + rest;
      assert s[|s| - |rest|..] == rest;
    }
  }

  /**
   * A package name `a.b.c` is read as the components `a`, `b`, `c` without wildcard, and
   * `a.b.c.*` as the same components with it.
   */
  lemma PatternComponents(parts: seq<string>)
    requires |parts| >= 1
    requires forall i :: 0 <= i < |parts| ==> parts[i] != "" && '.' !in parts[i] && '/' !in parts[i] && '*' !in parts[i]
    ensures NewMatcher(Join(parts, ".")) == PackageMatcher(parts, false)
    ensures NewMatcher(Join(parts, ".") + ".*") == PackageMatcher(parts, true)
  {
    var s := Join(parts, ".");
    NoWildcardSuffix(parts);
    DotsToSeparators(parts);
    SplitJoin(parts, '/');
    assert RemoveSuffix(s, ".*") == s;
    var w := s + ".*";
    assert EndsWith(w, ".*");
    assert RemoveSuffix(w, ".*") == s;
  }
}
