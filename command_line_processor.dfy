/**
 * The compiler side of the plugin: reading the four plugin options into the compiler
 * configuration, the defaults the registrar fills in, and the per-file decision whether (and
 * with which options) a source file is rewritten.
 */
module CommandLine {
  import opened Wrappers
  import opened Text
  import opened Nodes
  import O = ConverterOptions
  import opened PackageMatching
  import Parsing

  const PackagesOpt: string := "packages"
  const DebugOpt: string := "debug"
  const SymbolsOpt: string := "symbols"
  const UppercaseOpt: string := "uppercaseIsClass"

  // ---------------------------------------------------------------------------
  // Option values
  // ---------------------------------------------------------------------------

  /** `packages`: one matcher per `;`-separated pattern, in order. */
  function ParsePackages(value: string): (r: seq<PackageMatcher>)
    ensures |r| == |Split(value, ";")| && |r| >= 1
    ensures forall i :: 0 <= i < |r| ==> r[i] == NewMatcher(Split(value, ";")[i])
  {
    var patterns := Split(value, ";");
    seq(|patterns|, i requires 0 <= i < |patterns| => NewMatcher(patterns[i]))
  }

  /** The message of the exception thrown when `it[1]` reads past a one-element list. */
  function IndexError(index: nat, length: nat): string
  {
    "Index " + NatToString(index) + " out of bounds for length " + NatToString(length)
  }

  /** The message of the exception `SymbolType.valueOf` throws for an unknown name. */
  function NoEnumConstant(name: string): string
  {
    "No enum constant io.github.kotlinq.expression.node.SymbolType." + name
  }

  /** One `name:Type` entry: the text before the first `:` names the symbol, the next piece its type. */
  function ParseEntry(segment: string): (r: Outcome<(string, O.SymbolType)>)
    ensures r.Ok? <==> |Split(segment, ":")| >= 2 && O.SymbolTypeValueOf(Split(segment, ":")[1]).Some?
    ensures r.Ok? ==>
      r.value.0 == Split(segment, ":")[0] && O.SymbolTypeName(r.value.1) == Split(segment, ":")[1]
  {
    var pieces := Split(segment, ":");
    if |pieces| < 2 then Throw(Some(IndexError(1, |pieces|)))
    else
      match O.SymbolTypeValueOf(pieces[1])
      case None => Throw(Some(NoEnumConstant(pieces[1])))
      case Some(t) => Ok((pieces[0], t))
  }

  /**
   * `associate` over the entries from left to right: the first entry that does not parse
   * fails the whole value, and a later entry for a name overrides an earlier one.
   */
  function ParseEntries(segments: seq<string>): (r: Outcome<map<string, O.SymbolType>>)
    ensures r.Ok? <==> forall i :: 0 <= i < |segments| ==> ParseEntry(segments[i]).Ok?
    decreases |segments|
  {
    if segments == [] then Ok(map[])
    else
      var n := |segments| - 1;
      assert forall i :: 0 <= i < n ==> segments[..n][i] == segments[i];
      match ParseEntries(segments[..n])
      case Throw(m) => Throw(m)
      case Ok(acc) =>
        match ParseEntry(segments[n])
        case Throw(m) => Throw(m)
        case Ok(entry) => Ok(acc[entry.0 := entry.1])
  }

  /** A value that does not parse fails with the message of its first bad entry. */
  lemma {:induction false} EntriesFailure(segments: seq<string>)
    requires ParseEntries(segments).Throw?
    ensures exists i ::
      0 <= i < |segments| && FirstFailure(segments, i) && ParseEntries(segments).message == ParseEntry(segments[i]).message
    decreases |segments|
  {
    var n := |segments| - 1;
    var front := segments[..n];
    assert forall i :: 0 <= i < n ==> front[i] == segments[i];
    if ParseEntries(front).Throw? {
      EntriesFailure(front);
      var i :| 0 <= i < n && FirstFailure(front, i) &&
        ParseEntries(front).message == ParseEntry(front[i]).message;
      assert FirstFailure(segments, i);
    } else {
      assert FirstFailure(segments, n);
    }
  }

  /** Every entry's name is mapped, to the type of the last entry naming it. */
  lemma {:induction false} EntriesLastWins(segments: seq<string>)
    requires ParseEntries(segments).Ok?
    ensures forall i :: 0 <= i < |segments| ==> ParseEntry(segments[i]).value.0 in ParseEntries(segments).value
    ensures forall k :: k in ParseEntries(segments).value ==>
      exists i :: 0 <= i < |segments| && LastEntryFor(segments, i, k, ParseEntries(segments).value[k])
    decreases |segments|
  {
    EntriesNamed(segments);
    if segments != [] {
      var n := |segments| - 1;
      var front := segments[..n];
      EntriesFront(segments);
      EntriesLastWins(front);
      var acc := ParseEntries(front).value;
      var entry := ParseEntry(segments[n]).value;
      var r := ParseEntries(segments).value;
      forall k | k in r
        ensures exists i :: 0 <= i < |segments| && LastEntryFor(segments, i, k, r[k])
      {
        if k == entry.0 {
          assert LastEntryFor(segments, n, k, r[k]);
        } else {
          var i :| 0 <= i < n && LastEntryFor(front, i, k, acc[k]);
          LastEntryKept(segments, i, k, acc[k]);
        }
      }
    }
  }

  /** Every entry's name is mapped. */
  lemma {:induction false} EntriesNamed(segments: seq<string>)
    requires ParseEntries(segments).Ok?
    ensures forall i :: 0 <= i < |segments| ==> ParseEntry(segments[i]).value.0 in ParseEntries(segments).value
    decreases |segments|
  {
    if segments != [] {
      var n := |segments| - 1;
      EntriesFront(segments);
      EntriesNamed(segments[..n]);
    }
  }

  /** A value that parses parses entry by entry: the front, then the last entry added. */
  lemma EntriesFront(segments: seq<string>)
    requires ParseEntries(segments).Ok? && segments != []
    ensures var n := |segments| - 1;
      && (forall i :: 0 <= i < n ==> segments[..n][i] == segments[i])
      && ParseEntries(segments[..n]).Ok? && ParseEntry(segments[n]).Ok?
      && ParseEntries(segments).value ==
           ParseEntries(segments[..n]).value[ParseEntry(segments[n]).value.0 := ParseEntry(segments[n]).value.1]
  {
  }

  /** The last entry naming `k` in the front stays the last one when an entry for another name follows. */
  lemma LastEntryKept(segments: seq<string>, i: nat, k: string, t: O.SymbolType)
    requires segments != [] && i < |segments| - 1
    requires LastEntryFor(segments[..|segments| - 1], i, k, t)
    requires ParseEntry(segments[|segments| - 1]).Ok? && ParseEntry(segments[|segments| - 1]).value.0 != k
    ensures LastEntryFor(segments, i, k, t)
  {
    var front := segments[..|segments| - 1];
    assert forall j :: 0 <= j < |front| ==> front[j] == segments[j];
  }

  /** Entry `i` is the first one that does not parse. */
  predicate FirstFailure(segments: seq<string>, i: nat)
    requires i < |segments|
  {
    ParseEntry(segments[i]).Throw? && forall j :: 0 <= j < i ==> ParseEntry(segments[j]).Ok?
  }

  /** Entry `i` maps `k` to `t`, and no later entry names `k`. */
  predicate LastEntryFor(segments: seq<string>, i: nat, k: string, t: O.SymbolType)
    requires i < |segments|
  {
    && ParseEntry(segments[i]) == Ok((k, t))
    && forall j :: i < j < |segments| ==> !(ParseEntry(segments[j]).Ok? && ParseEntry(segments[j]).value.0 == k)
  }

  /** `symbols`: `;`-separated `name:Type` entries. */
  function ParseSymbols(value: string): Outcome<map<string, O.SymbolType>>
  {
    ParseEntries(Split(value, ";"))
  }

  // ---------------------------------------------------------------------------
  // The compiler configuration
  // ---------------------------------------------------------------------------

  /** The four configuration entries the plugin owns; `None` stands for an entry never put. */
  datatype Entries = Entries(
    packages: Option<seq<PackageMatcher>>,
    debug: Option<bool>,
    symbols: Option<map<string, O.SymbolType>>,
    uppercase: Option<bool>)

  const NoEntries: Entries := Entries(None, None, None, None)

  /**
   * `processOption`: put the parsed value under the option's key. An unknown option changes
   * nothing; a `symbols` value that does not parse fails and puts nothing.
   */
  function ApplyOption(c: Entries, name: string, value: string): (r: Outcome<Entries>)
    ensures r.Throw? <==> name == SymbolsOpt && ParseSymbols(value).Throw?
    ensures r.Ok? && name == PackagesOpt ==> r.value == c.(packages := Some(ParsePackages(value)))
    ensures r.Ok? && name == DebugOpt ==> r.value == c.(debug := Some(IsTrueIgnoringCase(value)))
    ensures r.Ok? && name == UppercaseOpt ==> r.value == c.(uppercase := Some(IsTrueIgnoringCase(value)))
    ensures r.Ok? && name == SymbolsOpt ==> r.value == c.(symbols := Some(ParseSymbols(value).value))
    ensures name !in {PackagesOpt, DebugOpt, SymbolsOpt, UppercaseOpt} ==> r == Ok(c)
  {
    if name == PackagesOpt then Ok(c.(packages := Some(ParsePackages(value))))
    else if name == DebugOpt then Ok(c.(debug := Some(IsTrueIgnoringCase(value))))
    else if name == SymbolsOpt then
      match ParseSymbols(value)
      case Throw(m) => Throw(m)
      case Ok(symbols) => Ok(c.(symbols := Some(symbols)))
    else if name == UppercaseOpt then Ok(c.(uppercase := Some(IsTrueIgnoringCase(value))))
    else Ok(c)
  }

  /** The compiler configuration, as far as the plugin's keys go. */
  class Configuration {
    var entries: Entries

    constructor()
      ensures entries == NoEntries
    {
      entries := NoEntries;
    }

    method ProcessOption(name: string, value: string) returns (r: Outcome<()>)
      modifies this
      ensures ApplyOption(old(entries), name, value).Throw? ==>
        r == Throw(ApplyOption(old(entries), name, value).message) && entries == old(entries)
      ensures ApplyOption(old(entries), name, value).Ok? ==>
        r == Ok(()) && entries == ApplyOption(old(entries), name, value).value
    {
      var next := ApplyOption(entries, name, value);
      if next.Throw? {
        return Throw(next.message);
      }
      entries := next.value;
      r := Ok(());
    }
  }

  // ---------------------------------------------------------------------------
  // Registrar and file extension
  // ---------------------------------------------------------------------------

  /** What the registrar hands the file extension: the matchers as given, the rest with their defaults. */
  datatype Settings = Settings(
    packageMatchers: Option<seq<PackageMatcher>>,
    debug: bool,
    symbolsMap: map<string, O.SymbolType>,
    upperCaseAsClass: bool)

  function Register(c: Entries): (s: Settings)
    ensures s.packageMatchers == c.packages
    ensures s.debug == (c.debug.Some? && c.debug.value)
    ensures s.symbolsMap == (if c.symbols.Some? then c.symbols.value else map[])
    ensures s.upperCaseAsClass == (c.uppercase.None? || c.uppercase.value)
  {
    Settings(c.packages, c.debug.GetOr(false), c.symbols.GetOr(map[]), c.uppercase.GetOr(true))
  }

  /** A file whose text is rewritten with `options` when it is read. */
  datatype PatchedFile = PatchedFile(path: Path, options: O.Options)

  /** No matchers at all, or an empty list: rewrite only code marked `@Kotlinq`. */
  predicate NoPackageMatchers(matchers: Option<seq<PackageMatcher>>)
  {
    matchers.None? || matchers.value == []
  }

  /** Matchers are given and none accepts the file's directory. */
  predicate Skipped(matchers: Option<seq<PackageMatcher>>, path: Path)
  {
    matchers.Some? && forall i :: 0 <= i < |matchers.value| ==> !Test(matchers.value[i], Parent(path))
  }

  /** The options a file is rewritten with. */
  function FileOptions(s: Settings): (o: O.Options)
    ensures o.symbolTypes == s.symbolsMap && o.upperCaseIsClassName == s.upperCaseAsClass
    ensures o.onlyIfAnnotationPresent <==> s.packageMatchers.None? || s.packageMatchers.value == []
  {
    O.Options(s.symbolsMap, s.upperCaseAsClass, NoPackageMatchers(s.packageMatchers))
  }

  /**
   * `patchBody`: the rewritten text, or the original when nothing was rewritten. A failure
   * while rewriting escapes.
   */
  function PatchBody(f: PatchedFile, original: string, parse: string -> Ast): (r: Outcome<string>)
    ensures Parsing.Processed(original, f.options, parse) == Ok(None) ==> r == Ok(original)
    ensures Parsing.Processed(original, f.options, parse).Throw? ==>
      r == Throw(Parsing.Processed(original, f.options, parse).message)
    ensures (Parsing.Processed(original, f.options, parse).Ok? &&
      Parsing.Processed(original, f.options, parse).value.Some?) ==>
      r == Ok(Parsing.Processed(original, f.options, parse).value.value)
  {
    match Parsing.Processed(original, f.options, parse)
    case Throw(m) => Throw(m)
    case Ok(None) => Ok(original)
    case Ok(Some(text)) => Ok(text)
  }

  class KotlinqFileExtension {
    const settings: Settings
    /** How many files were let through for rewriting. */
    var counter: nat

    constructor(settings: Settings)
      ensures this.settings == settings && counter == 0
    {
      this.settings := settings;
      counter := 0;
    }

    /**
     * `createPreprocessedFile`: no file gives nothing; a file outside every given package is
     * skipped; any other file is counted and handed back to be rewritten with the
     * configured options.
     */
    method CreatePreprocessedFile(file: Option<Path>) returns (r: Option<PatchedFile>)
      modifies this
      ensures file.None? ==> r.None?
      ensures file.Some? && Skipped(settings.packageMatchers, file.value) ==> r.None?
      ensures file.Some? && !Skipped(settings.packageMatchers, file.value) ==>
        r == Some(PatchedFile(file.value, FileOptions(settings)))
      ensures counter == old(counter) + (if r.Some? then 1 else 0)
    {
      if file.None? {
        return None;
      }
      var path := file.value;
      var noPackageMatchers := NoPackageMatchers(settings.packageMatchers);
      if settings.packageMatchers.Some? {
        var matchers := settings.packageMatchers.value;
        var i := 0;
        var anyAccepts := false;
        while i < |matchers| && !anyAccepts
          invariant 0 <= i <= |matchers|
          invariant anyAccepts <==> exists j :: 0 <= j < i && Test(matchers[j], Parent(path))
        {
          anyAccepts := Test(matchers[i], Parent(path));
          i := i + 1;
        }
        if !anyAccepts {
          return None;
        }
      }
      counter := counter + 1;
      r := Some(PatchedFile(path, O.Options(settings.symbolsMap, settings.upperCaseAsClass, noPackageMatchers)));
    }
  }

  /**
   * A given but empty list of matchers skips every file, so the empty-list case of
   * `noPackageMatchers` never reaches a rewrite; the `packages` option always yields at least
   * one matcher, so such a list does not arise from the options.
   */
  lemma EmptyMatchersSkipAll(path: Path, value: string)
    ensures Skipped(Some([]), path)
    ensures ParsePackages(value) != []
  {
  }
}
