/**
 * The Gradle side of the plugin: the `kotlinq { … }` block becomes the list of plugin
 * options the compiler receives, and those options, read back by the compiler, give the
 * configuration the block describes.
 */
module GradlePlugin {
  import opened Wrappers
  import opened Text
  import O = ConverterOptions
  import opened PackageMatching
  import opened Extension
  import CommandLine

  /** One `key=value` option handed to the compiler plugin. */
  datatype SubpluginOption = SubpluginOption(key: string, value: string)

  /** `Boolean.toString()`, which `toBoolean()` reads back. */
  function BoolToString(b: bool): (r: string)
    ensures IsTrueIgnoringCase(r) == b
  {
    if b then "true" else "false"
  }

  /** Every listed key has an entry. */
  predicate KeysListed(t: LinkedMap)
  {
    forall i :: 0 <= i < |t.keys| ==> t.keys[i] in t.values
  }

  /** `symbolTypes.map { (k, v) -> "$k:$v" }`, in the order the keys were first put. */
  function SymbolEntries(t: LinkedMap): (r: seq<string>)
    requires KeysListed(t)
    ensures |r| == |t.keys|
    ensures forall i :: 0 <= i < |r| ==> r[i] == t.keys[i] + ":" + t.values[t.keys[i]]
  {
    seq(|t.keys|, i requires 0 <= i < |t.keys| && KeysListed(t) => t.keys[i] + ":" + t.values[t.keys[i]])
  }

  /**
   * `applyToCompilation`: packages joined by `;` when there are any, then the two switches,
   * then the symbol entries joined by `;` when there are any.
   */
  function SubpluginOptions(packages: seq<string>, debug: bool, upperCaseIsClassName: bool, symbolTypes: LinkedMap): (r: seq<SubpluginOption>)
    requires KeysListed(symbolTypes)
    ensures |r| == 2 + (if packages == [] then 0 else 1) + (if symbolTypes.keys == [] then 0 else 1)
    ensures packages != [] ==> r[0] == SubpluginOption(CommandLine.PackagesOpt, Join(packages, ";"))
    ensures symbolTypes.keys != [] ==>
      r[|r| - 1] == SubpluginOption(CommandLine.SymbolsOpt, Join(SymbolEntries(symbolTypes), ";"))
    ensures forall i :: 0 <= i < |r| && r[i].key == CommandLine.DebugOpt ==> r[i].value == BoolToString(debug)
    ensures forall i :: 0 <= i < |r| && r[i].key == CommandLine.UppercaseOpt ==> r[i].value == BoolToString(upperCaseIsClassName)
    ensures exists i :: 0 <= i < |r| && r[i].key == CommandLine.DebugOpt
    ensures exists i :: 0 <= i < |r| && r[i].key == CommandLine.UppercaseOpt
  {
    var head := PackagesOption(packages);
    var switches := Switches(debug, upperCaseIsClassName);
    var r := head + switches + SymbolsOption(symbolTypes);
    assert r[|head|] == switches[0] && r[|head| + 1] == switches[1];
    r
  }

  /** The `packages` option, present only when some package is given. */
  function PackagesOption(packages: seq<string>): seq<SubpluginOption>
  {
    if packages == [] then [] else [SubpluginOption(CommandLine.PackagesOpt, Join(packages, ";"))]
  }

  /** The two switches, always present. */
  function Switches(debug: bool, upperCaseIsClassName: bool): seq<SubpluginOption>
  {
    [SubpluginOption(CommandLine.DebugOpt, BoolToString(debug)),
      SubpluginOption(CommandLine.UppercaseOpt, BoolToString(upperCaseIsClassName))]
  }

  /** The `symbols` option, present only when some symbol is given. */
  function SymbolsOption(t: LinkedMap): seq<SubpluginOption>
    requires KeysListed(t)
  {
    if t.keys == [] then [] else [SubpluginOption(CommandLine.SymbolsOpt, Join(SymbolEntries(t), ";"))]
  }

  /** The options of a configured `kotlinq { … }` block. */
  function ApplyToCompilation(ext: KotlinqExtension): seq<SubpluginOption>
    requires KeysListed(ext.symbolTypes)
    reads ext
  {
    SubpluginOptions(ext.packages, ext.debug, ext.upperCaseIsClassName, ext.symbolTypes)
  }

  /** The compiler reads the options one after the other into its configuration. */
  function ApplyAll(c: CommandLine.Entries, options: seq<SubpluginOption>): (r: Outcome<CommandLine.Entries>)
    decreases |options|
  {
    if options == [] then Ok(c)
    else
      match CommandLine.ApplyOption(c, options[0].key, options[0].value)
      case Throw(m) => Throw(m)
      case Ok(next) => ApplyAll(next, options[1..])
  }

  /** The symbol types the block describes, as the compiler side knows them. */
  function ConfiguredSymbols(t: LinkedMap): (r: map<string, O.SymbolType>)
    ensures WellFormed(t) ==> r.Keys == t.values.Keys
    ensures forall k :: k in r ==> k in t.values && O.SymbolTypeName(r[k]) == t.values[k]
  {
    map k | k in t.values && O.SymbolTypeValueOf(t.values[k]).Some? :: O.SymbolTypeValueOf(t.values[k]).value
  }

  /** A list of package names without `;` joined on this side is split back into one matcher per name. */
  lemma PackagesRoundTrip(packages: seq<string>)
    requires |packages| >= 1
    requires forall i :: 0 <= i < |packages| ==> ';' !in packages[i]
    ensures CommandLine.ParsePackages(Join(packages, ";")) == seq(|packages|, i requires 0 <= i < |packages| => NewMatcher(packages[i]))
  {
    SplitJoin(packages, ';');
  }

  /** One `name:Type` entry with a name free of `:` reads back as that name and type. */
  lemma EntryRoundTrip(k: string, v: string)
    requires ':' !in k
    requires v == ConstructorName || v == IdentifierName
    ensures CommandLine.ParseEntry(k + ":" + v) == Ok((k, O.SymbolTypeValueOf(v).value))
  {
    SplitAtFirst(k, ":", v);
    SplitWhole(v, ":");
    assert Split(k + ":" + v, ":") == [k, v];
  }

  /** Each written entry is free of `;` and reads back as its name and type. */
  lemma EntriesReadBack(t: LinkedMap)
    requires WellFormed(t)
    requires forall i :: 0 <= i < |t.keys| ==> ';' !in t.keys[i] && ':' !in t.keys[i]
    ensures KeysListed(t)
    ensures forall i :: 0 <= i < |t.keys| ==> ';' !in SymbolEntries(t)[i]
    ensures forall i :: 0 <= i < |t.keys| ==>
      CommandLine.ParseEntry(SymbolEntries(t)[i]) == Ok((t.keys[i], O.SymbolTypeValueOf(t.values[t.keys[i]]).value))
  {
    var entries := SymbolEntries(t);
    forall i | 0 <= i < |entries|
      ensures ';' !in entries[i]
      ensures CommandLine.ParseEntry(entries[i]) == Ok((t.keys[i], O.SymbolTypeValueOf(t.values[t.keys[i]]).value))
    {
      var v := t.values[t.keys[i]];
      assert ';' !in v;
      EntryRoundTrip(t.keys[i], v);
    }
  }

  /** Entries that each read back as a key of `want` with its type, one entry at least per key, give `want`. */
  lemma EntriesGiveMap(keys: seq<string>, want: map<string, O.SymbolType>, entries: seq<string>)
    requires |entries| == |keys|
    requires forall i :: 0 <= i < |keys| ==> keys[i] in want && CommandLine.ParseEntry(entries[i]) == Ok((keys[i], want[keys[i]]))
    requires forall k :: k in want ==> k in keys
    ensures CommandLine.ParseEntries(entries) == Ok(want)
  {
    assert CommandLine.ParseEntries(entries).Ok?;
    CommandLine.EntriesLastWins(entries);
    var m := CommandLine.ParseEntries(entries).value;
    forall k | k in m
      ensures k in want && m[k] == want[k]
    {
      var i :| 0 <= i < |entries| && CommandLine.LastEntryFor(entries, i, k, m[k]);
      assert CommandLine.ParseEntry(entries[i]) == Ok((k, m[k]));
    }
    forall k | k in want
      ensures k in m
    {
      var i :| 0 <= i < |keys| && keys[i] == k;
      assert CommandLine.ParseEntry(entries[i]).value.0 == k;
    }
    SameMap(m, want);
  }

  lemma SameMap<K, V>(m: map<K, V>, want: map<K, V>)
    requires forall k :: k in m ==> k in want && m[k] == want[k]
    requires forall k :: k in want ==> k in m
    ensures m == want
  {
  }

  /**
   * The symbol entries written for a well-formed map whose names contain neither `;` nor `:`
   * are read back as the same map.
   */
  lemma SymbolsRoundTrip(t: LinkedMap)
    requires WellFormed(t) && |t.keys| >= 1
    requires forall i :: 0 <= i < |t.keys| ==> ';' !in t.keys[i] && ':' !in t.keys[i]
    ensures KeysListed(t)
    ensures CommandLine.ParseSymbols(Join(SymbolEntries(t), ";")) == Ok(ConfiguredSymbols(t))
  {
    EntriesReadBack(t);
    var entries := SymbolEntries(t);
    var want := ConfiguredSymbols(t);
    SplitJoin(entries, ';');
    assert forall i :: 0 <= i < |t.keys| ==> O.SymbolTypeValueOf(t.values[t.keys[i]]).value == want[t.keys[i]];
    EntriesGiveMap(t.keys, want, entries);
  }

  /**
   * What a `kotlinq { … }` block configures reaches the compiler unchanged: reading its options
   * into an empty configuration puts the packages (when there are any) as one matcher each,
   * both switches, and the symbol types (when there are any).
   */
  lemma OptionsRoundTrip(packages: seq<string>, debug: bool, upperCaseIsClassName: bool, symbolTypes: LinkedMap)
    requires WellFormed(symbolTypes)
    requires forall i :: 0 <= i < |packages| ==> ';' !in packages[i]
    requires forall i :: 0 <= i < |symbolTypes.keys| ==> ';' !in symbolTypes.keys[i] && ':' !in symbolTypes.keys[i]
    ensures KeysListed(symbolTypes)
    ensures ApplyAll(CommandLine.NoEntries, SubpluginOptions(packages, debug, upperCaseIsClassName, symbolTypes)) ==
      Ok(CommandLine.Entries(
        if packages == [] then None else Some(seq(|packages|, i requires 0 <= i < |packages| => NewMatcher(packages[i]))),
        Some(debug),
        if symbolTypes.keys == [] then None else Some(ConfiguredSymbols(symbolTypes)),
        Some(upperCaseIsClassName)))
  {
    var c1 := if packages == [] then CommandLine.NoEntries
      else CommandLine.NoEntries.(packages := Some(seq(|packages|, i requires 0 <= i < |packages| => NewMatcher(packages[i]))));
    var c3 := c1.(debug := Some(debug), uppercase := Some(upperCaseIsClassName));
    var rest := Switches(debug, upperCaseIsClassName) + SymbolsOption(symbolTypes);
    assert SubpluginOptions(packages, debug, upperCaseIsClassName, symbolTypes) == PackagesOption(packages) + rest;
    PackagesApplied(CommandLine.NoEntries, packages, rest);
    SwitchesApplied(c1, debug, upperCaseIsClassName, SymbolsOption(symbolTypes));
    SymbolsApplied(c3, symbolTypes);
  }

  lemma PackagesApplied(c: CommandLine.Entries, packages: seq<string>, rest: seq<SubpluginOption>)
    requires forall i :: 0 <= i < |packages| ==> ';' !in packages[i]
    ensures ApplyAll(c, PackagesOption(packages) + rest) ==
      ApplyAll(if packages == [] then c else c.(packages := Some(seq(|packages|, i requires 0 <= i < |packages| => NewMatcher(packages[i])))), rest)
  {
    if packages == [] {
      assert PackagesOption(packages) + rest == rest;
    } else {
      PackagesRoundTrip(packages);
      assert (PackagesOption(packages) + rest)[1..] == rest;
    }
  }

  lemma SwitchesApplied(c: CommandLine.Entries, debug: bool, upperCaseIsClassName: bool, tail: seq<SubpluginOption>)
    ensures ApplyAll(c, Switches(debug, upperCaseIsClassName) + tail) ==
      ApplyAll(c.(debug := Some(debug), uppercase := Some(upperCaseIsClassName)), tail)
  {
    var switches := Switches(debug, upperCaseIsClassName);
    assert (switches + tail)[1..] == [switches[1]] + tail;
    assert ([switches[1]] + tail)[1..] == tail;
  }

  lemma SymbolsApplied(c: CommandLine.Entries, t: LinkedMap)
    requires WellFormed(t)
    requires forall i :: 0 <= i < |t.keys| ==> ';' !in t.keys[i] && ':' !in t.keys[i]
    ensures KeysListed(t)
    ensures ApplyAll(c, SymbolsOption(t)) == Ok(if t.keys == [] then c else c.(symbols := Some(ConfiguredSymbols(t))))
  {
    if t.keys != [] {
      SymbolsRoundTrip(t);
      assert SymbolsOption(t)[1..] == [];
    }
  }
}
