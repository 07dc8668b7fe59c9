/** parseType and typeMap (generator.go:127-137, 330-346): the Elasticsearch
    type of a leaf field, looked up from its Go type name. */
module Types {
  import opened Ast

  /** typeMap: Go type name to Elasticsearch type, exact matches only. */
  const TypeMap: map<string, string> := map[
    "int64" := "long",
    "int" := "integer",
    "short" := "integer",
    "byte" := "byte",
    "float64" := "double",
    "float" := "float",
    "Time" := "date",
    "string" := "text"
  ]

  /** The name parseType looks up: an identifier's own name, the part after
      the dot of a selector, and "" for any other type expression. */
  function LookupName(t: TypeExpr): string
  {
    match t
    case Ident(name, _) => name
    case Selector(_, sel) => sel
    case _ => ""
  }

  /** parseType: "array" for every array type, the typeMap entry of the
      looked-up name when there is one, "unknown" otherwise. */
  function ParseType(t: TypeExpr): (r: string)
    ensures t.ArrayType? ==> r == "array"
    ensures t.Ident? && t.name in TypeMap ==> r == TypeMap[t.name]
    ensures t.Selector? && t.sel in TypeMap ==> r == TypeMap[t.sel]
    ensures r == "unknown" <==> !t.ArrayType? && LookupName(t) !in TypeMap
    ensures r == "array" || r == "unknown" || r in TypeMap.Values
  {
    if t.ArrayType? then "array" else Lookup(LookupName(t))
  }

  /** The typeMap entry of a name, or "unknown". */
  function Lookup(name: string): string
  {
    if name in TypeMap then TypeMap[name] else "unknown"
  }

  /** A selector is mapped by its type name alone: `time.Time` is a date,
      whatever the package alias. */
  lemma SelectorTimeIsDate(pkg: string)
    ensures ParseType(Selector(pkg, "Time")) == "date"
  {
  }
}
