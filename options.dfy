/**
 * The converter's options: the symbol table that decides how ambiguous names are read, whether an
 * upper-case call name is a class, and whether only annotated code is rewritten.
 */
module ConverterOptions {
  import opened Wrappers

  /** How a name is read: as a plain identifier, or as a class whose call is a constructor call. */
  datatype SymbolType = Identifier | Constructor

  datatype Options = Options(
    symbolTypes: map<string, SymbolType>,
    upperCaseIsClassName: bool,
    onlyIfAnnotationPresent: bool)

  /** Collection builders that look like calls of top-level functions. */
  const AmbiguousNames: map<string, SymbolType> :=
    map["listOf" := Identifier, "setOf" := Identifier, "mapOf" := Identifier]

  /** Classes whose lower-case-looking use is a constructor call. */
  const DefinitelyConstructors: map<string, SymbolType> := map["Pair" := Constructor]

  const DefaultSymbolTypes: map<string, SymbolType> := AmbiguousNames + DefinitelyConstructors

  /** `Options()`. */
  const Default: Options := Options(DefaultSymbolTypes, true, false)

  /**
   * The options the converter actually uses: the default symbol table overlaid with the supplied
   * one (a supplied entry wins for its name), the other fields as supplied.
   */
  function WithDefaultSymbols(o: Options): (r: Options)
    ensures r.upperCaseIsClassName == o.upperCaseIsClassName
    ensures r.onlyIfAnnotationPresent == o.onlyIfAnnotationPresent
    ensures r.symbolTypes.Keys == DefaultSymbolTypes.Keys + o.symbolTypes.Keys
    ensures forall k :: k in o.symbolTypes ==> r.symbolTypes[k] == o.symbolTypes[k]
    ensures forall k :: k in DefaultSymbolTypes && k !in o.symbolTypes ==>
      r.symbolTypes[k] == DefaultSymbolTypes[k]
  {
    o.(symbolTypes := DefaultSymbolTypes + o.symbolTypes)
  }

  /** The enum constant's name. */
  function SymbolTypeName(t: SymbolType): string
  {
    match t
    case Identifier => "Identifier"
    case Constructor => "Constructor"
  }

  /** `SymbolType.valueOf(s)`: exact, case-sensitive; `None` stands for the failure on any other text. */
  function SymbolTypeValueOf(s: string): (r: Option<SymbolType>)
    ensures r.Some? <==> s == "Identifier" || s == "Constructor"
    ensures r.Some? ==> SymbolTypeName(r.value) == s
  {
    if s == "Identifier" then Some(Identifier)
    else if s == "Constructor" then Some(Constructor)
    else None
  }

  /** Reading a symbol type's name gives the symbol type back. */
  lemma SymbolTypeNameRoundTrip(t: SymbolType)
    ensures SymbolTypeValueOf(SymbolTypeName(t)) == Some(t)
  {
  }

  /** The default table reads the three collection builders as identifiers and `Pair` as a class. */
  lemma DefaultTable()
    ensures DefaultSymbolTypes.Keys == {"listOf", "setOf", "mapOf", "Pair"}
    ensures DefaultSymbolTypes["listOf"] == Identifier && DefaultSymbolTypes["setOf"] == Identifier
    ensures DefaultSymbolTypes["mapOf"] == Identifier && DefaultSymbolTypes["Pair"] == Constructor
    ensures Default.upperCaseIsClassName && !Default.onlyIfAnnotationPresent
  {
  }
}
