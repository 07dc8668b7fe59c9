/** The slice of Go's syntax tree (go/ast) the generator inspects, and the
    values of the property maps it builds. The Go parser itself is not
    modelled: parsed files and directories are given as these values. */
module Ast {
  import opened Wrappers

  /** A struct tag as reflect.StructTag.Get reads it: the values of its
      `json` and `es` keys, each possibly absent. */
  datatype Tag = Tag(json: Option<string>, es: Option<string>)

  /** A field's type expression. An identifier carries ast.Ident.Obj.Decl
      when the parser resolved it to a type declaration of the same file;
      since a datatype value is finite, such same-file references are acyclic. */
  datatype TypeExpr =
    | Ident(name: string, decl: Option<TypeSpec>)
    | Selector(pkg: string, sel: string)
    | ArrayType(elem: TypeExpr)
    | OtherType   // star expressions, maps, channels, function and interface types

  /** One entry of a struct's field list: `A, B T` has two names, an
      embedded field none. */
  datatype Field = Field(names: seq<string>, typ: TypeExpr, tag: Option<Tag>)

  datatype TypeBody = StructType(fields: seq<Field>) | NonStruct

  datatype TypeSpec = TypeSpec(name: string, body: TypeBody)

  /** A spec of a general declaration: a type spec, or an import, const or
      var spec. */
  datatype Spec = TypeItem(ts: TypeSpec) | OtherSpec

  /** A top-level declaration; `doc` holds the text of each line of the doc
      comment group above a general declaration (empty when there is none). */
  datatype Decl = GenDecl(doc: seq<string>, specs: seq<Spec>) | FuncDecl

  /** An import with its optional explicit name and its (unquoted) path. */
  datatype ImportSpec = ImportSpec(name: Option<string>, path: string)

  datatype SourceFile = SourceFile(imports: seq<ImportSpec>, decls: seq<Decl>)

  /** A parsed package. The Go maps of packages and of files are given as
      sequences in the order a `range` over them happened to visit them. */
  datatype Package = Package(files: seq<SourceFile>)

  type PackageTree = seq<Package>

  /** A value stored in a property map: a string (a mapped type or an `es`
      attribute), Go's nil map, or a nested property map. */
  datatype Value = Str(s: string) | Null | Obj(props: map<string, Value>)

  type Properties = map<string, Value>
}
