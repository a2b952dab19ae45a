/**
 * The `kotlinq { … }` block of a Gradle build: the packages to rewrite, the symbols read as
 * constructors or as plain identifiers, and two switches.
 */
module Extension {

  /** The two symbol type names the block writes. */
  const ConstructorName: string := "Constructor"
  const IdentifierName: string := "Identifier"

  /**
   * A map that remembers the order in which its keys were first put (a `LinkedHashMap`):
   * `keys` lists the keys in that order, `values` holds the entries.
   */
  datatype LinkedMap = LinkedMap(keys: seq<string>, values: map<string, string>)

  /** The keys are listed once each, exactly the keys of the entries, and every value is a symbol type name. */
  ghost predicate WellFormed(t: LinkedMap)
  {
    && (forall i, j :: 0 <= i < j < |t.keys| ==> t.keys[i] != t.keys[j])
    && (forall k :: k in t.values <==> k in t.keys)
    && (forall k :: k in t.values ==> t.values[k] == ConstructorName || t.values[k] == IdentifierName)
  }

  const EmptyMap: LinkedMap := LinkedMap([], map[])

  /**
   * `t[k] = v`: the entry for `k` becomes `v`; a new key goes to the end of the order, an
   * existing one keeps its place.
   */
  function Put(t: LinkedMap, k: string, v: string): (r: LinkedMap)
    ensures WellFormed(t) && (v == ConstructorName || v == IdentifierName) ==> WellFormed(r)
  {
    LinkedMap(if k in t.values then t.keys else t.keys + [k], t.values[k := v])
  }

  /** After `t[k] = v`, `k` maps to `v`, every other entry is as it was, and the order of the old keys is kept. */
  lemma PutEntries(t: LinkedMap, k: string, v: string)
    ensures k in Put(t, k, v).values && Put(t, k, v).values[k] == v
    ensures forall x :: x != k ==> (x in Put(t, k, v).values <==> x in t.values)
    ensures forall x :: x != k && x in t.values ==> Put(t, k, v).values[x] == t.values[x]
    ensures |t.keys| <= |Put(t, k, v).keys| && Put(t, k, v).keys[..|t.keys|] == t.keys
  {
  }

  /** `for (s in ks) t[s] = v`. */
  function PutAll(t: LinkedMap, ks: seq<string>, v: string): (r: LinkedMap)
    ensures WellFormed(t) && (v == ConstructorName || v == IdentifierName) ==> WellFormed(r)
    decreases |ks|
  {
    if ks == [] then t else Put(PutAll(t, ks[..|ks| - 1], v), ks[|ks| - 1], v)
  }

  /** After `for (s in ks) t[s] = v` every symbol of `ks` maps to `v`: the last call wins. */
  lemma {:induction false} PutAllSets(t: LinkedMap, ks: seq<string>, v: string)
    ensures forall k :: k in ks ==> k in PutAll(t, ks, v).values && PutAll(t, ks, v).values[k] == v
    decreases |ks|
  {
    if ks != [] {
      var front := ks[..|ks| - 1];
      var last := ks[|ks| - 1];
      PutAllSets(t, front, v);
      PutEntries(PutAll(t, front, v), last, v);
      assert forall k :: k in ks ==> k in front || k == last;
    }
  }

  /** ... and every entry for a symbol not in `ks` is as it was. */
  lemma {:induction false} PutAllKeeps(t: LinkedMap, ks: seq<string>, v: string)
    ensures forall x :: x !in ks ==> (x in PutAll(t, ks, v).values <==> x in t.values)
    ensures forall x :: x !in ks && x in t.values ==> PutAll(t, ks, v).values[x] == t.values[x]
    decreases |ks|
  {
    if ks != [] {
      var front := ks[..|ks| - 1];
      var last := ks[|ks| - 1];
      PutAllKeeps(t, front, v);
      PutEntries(PutAll(t, front, v), last, v);
      assert forall x :: x !in ks ==> x !in front && x != last;
    }
  }

  /** ... and the keys already present keep their order at the front. */
  lemma {:induction false} PutAllOrder(t: LinkedMap, ks: seq<string>, v: string)
    ensures |t.keys| <= |PutAll(t, ks, v).keys| && PutAll(t, ks, v).keys[..|t.keys|] == t.keys
    decreases |ks|
  {
    if ks != [] {
      var front := ks[..|ks| - 1];
      PutAllOrder(t, front, v);
      var before := PutAll(t, front, v);
      PutEntries(before, ks[|ks| - 1], v);
      assert PutAll(t, ks, v).keys[..|t.keys|] == before.keys[..|t.keys|];
    }
  }

  /** Putting the keys of `ks` up to and including `ks[i]` is putting those before it, then `ks[i]`. */
  lemma PutAllPrefix(t: LinkedMap, ks: seq<string>, i: nat, v: string)
    requires i < |ks|
    ensures PutAll(t, ks[..i + 1], v) == Put(PutAll(t, ks[..i], v), ks[i], v)
  {
    assert ks[..i + 1][..i] == ks[..i];
  }

  class KotlinqExtension {
    var packages: seq<string>
    var symbolTypes: LinkedMap
    /** Whether rewritten sources are also written out for inspection. */
    var debug: bool
    /** Whether a call whose name starts with an upper-case letter is a constructor call. */
    var upperCaseIsClassName: bool

    ghost predicate Valid()
      reads this
    {
      WellFormed(symbolTypes)
    }

    constructor()
      ensures packages == [] && symbolTypes == EmptyMap
      ensures !debug && upperCaseIsClassName
      ensures Valid()
    {
      packages := [];
      symbolTypes := EmptyMap;
      debug := false;
      upperCaseIsClassName := true;
    }

    /** `package(pkg)`: one more package to rewrite, after the ones already given. */
    method Package(pkg: string)
      modifies this
      ensures packages == old(packages) + [pkg]
      ensures symbolTypes == old(symbolTypes)
      ensures debug == old(debug) && upperCaseIsClassName == old(upperCaseIsClassName)
    {
      packages := packages + [pkg];
    }

    /** `constructors(s…)`: each symbol is read as a class, whatever it was before. */
    method Constructors(symbols: seq<string>)
      requires Valid()
      modifies this
      ensures Valid()
      ensures symbolTypes == PutAll(old(symbolTypes), symbols, ConstructorName)
      ensures packages == old(packages)
      ensures debug == old(debug) && upperCaseIsClassName == old(upperCaseIsClassName)
    {
      SetAll(symbols, ConstructorName);
    }

    /** `ignore(s…)`: each symbol is read as a plain identifier, whatever it was before. */
    method Ignore(symbols: seq<string>)
      requires Valid()
      modifies this
      ensures Valid()
      ensures symbolTypes == PutAll(old(symbolTypes), symbols, IdentifierName)
      ensures packages == old(packages)
      ensures debug == old(debug) && upperCaseIsClassName == old(upperCaseIsClassName)
    {
      SetAll(symbols, IdentifierName);
    }

    /** The loop both methods run: `for (s in symbols) symbolTypes[s] = v`. */
    method SetAll(symbols: seq<string>, v: string)
      requires Valid() && (v == ConstructorName || v == IdentifierName)
      modifies this
      ensures Valid()
      ensures symbolTypes == PutAll(old(symbolTypes), symbols, v)
      ensures packages == old(packages)
      ensures debug == old(debug) && upperCaseIsClassName == old(upperCaseIsClassName)
    {
      ghost var before := symbolTypes;
      var i := 0;
      while i < |symbols|
        invariant 0 <= i <= |symbols|
        invariant symbolTypes == PutAll(before, symbols[..i], v)
        invariant WellFormed(symbolTypes)
        invariant packages == old(packages)
        invariant debug == old(debug) && upperCaseIsClassName == old(upperCaseIsClassName)
      {
        PutAllPrefix(before, symbols, i, v);
        symbolTypes := Put(symbolTypes, symbols[i], v);
        i := i + 1;
      }
      assert symbols[..i] == symbols;
    }
  }
}
