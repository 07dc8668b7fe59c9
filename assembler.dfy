/** The meaning of ParseDecl (generator.go:235-311) as recursive functions:
    the property map of a type declaration is built field by field, in
    declared order, each field contributing entries that overwrite earlier
    ones with the same key. The imperative ParseDecl of the Generator class is
    proved to compute exactly ParseDeclSpec. */
module Assembler {
  import opened Wrappers
  import opened Strings
  import opened Ast
  import opened Types
  import opened Tags
  import opened Resolver

  /** What ParseDecl reads besides its arguments: the generator's import
      table (alias to directory) and parser.ParseDir, which yields None when
      the directory cannot be parsed. */
  datatype Env = Env(imports: map<string, string>, parseDir: string -> Option<PackageTree>)

  /** The directory an import alias stands for, "" when it has none. */
  function ImportDir(env: Env, alias: string): string
  {
    if alias in env.imports then env.imports[alias] else ""
  }

  /** A selector type whose alias names a directory: that directory is parsed
      and searched. */
  predicate ReadsDirectory(env: Env, t: TypeExpr)
  {
    t.Selector? && ImportDir(env, t.pkg) != ""
  }

  function ParseDirError(dir: string): string
  {
    "cannot parse directory " + dir
  }

  /** The entry of a named field whose type resolved to a declaration:
      {"properties": nested}, where a non-struct declaration gives Go's nil. */
  function Nested(ext: Option<Properties>): Value
  {
    Obj(map["properties" := if ext.Some? then Obj(ext.value) else Null])
  }

  /** The entry of a named field whose type did not resolve:
      {"type": parseType(f)} with the `es` attributes merged on top. */
  function Leaf(t: TypeExpr, es: Properties): (v: Value)
    ensures v.Obj? && v.props.Keys == {"type"} + es.Keys
    ensures forall k :: k in es ==> v.props[k] == es[k]
    ensures "type" !in es ==> v.props["type"] == Str(ParseType(t))
  {
    Obj(map["type" := Str(ParseType(t))] + es)
  }

  /** What a resolved field contributes: under a name, the nested object;
      without one, the nested declaration's own entries (nothing for a
      non-struct). */
  function Place(name: string, ext: Outcome<Option<Properties>>): Outcome<Properties>
  {
    match ext
    case Ok(e) =>
      if name == "" then Ok(if e.Some? then e.value else map[])
      else Ok(map[name := Nested(e)])
    case Fatal(m) => Fatal(m)
    case OutOfFuel => OutOfFuel
  }

  /** ParseDecl: None for a type that is not a struct, otherwise the merged
      contributions of its fields. `tree` is the package tree in which
      embedded identifiers are searched (nil, i.e. [], at the top level).
      Following a type that had to be searched for costs one unit of `fuel`;
      running out gives OutOfFuel, where the Go code would recurse forever on
      a cycle through packages. */
  function ParseDeclSpec(env: Env, spec: TypeSpec, tree: PackageTree, fuel: nat): Outcome<Option<Properties>>
    decreases fuel, spec, 2, 0
  {
    match spec.body
    case NonStruct => Ok(None)
    case StructType(fields) =>
      match AssembleFrom(env, spec, tree, fuel, 0, map[])
      case Ok(p) => Ok(Some(p))
      case Fatal(m) => Fatal(m)
      case OutOfFuel => OutOfFuel
  }

  /** The field loop from field i on, with `acc` built from the fields before. */
  function AssembleFrom(env: Env, spec: TypeSpec, tree: PackageTree, fuel: nat, i: nat, acc: Properties): Outcome<Properties>
    requires spec.body.StructType? && i <= |spec.body.fields|
    decreases fuel, spec, 1, |spec.body.fields| - i
  {
    if i == |spec.body.fields| then Ok(acc)
    else
      match Contribution(env, spec, tree, fuel, i)
      case Ok(d) => AssembleFrom(env, spec, tree, fuel, i + 1, acc + d)
      case Fatal(m) => Fatal(m)
      case OutOfFuel => OutOfFuel
  }

  /** The tree a field's type is resolved in: the parsed directory of a
      selector whose alias names one (None when it cannot be parsed), else
      the current tree. */
  function FieldTree(env: Env, t: TypeExpr, tree: PackageTree): Option<PackageTree>
  {
    if ReadsDirectory(env, t) then env.parseDir(ImportDir(env, t.pkg)) else Some(tree)
  }

  /** The declaration a field's type is searched to: the selector's name in
      its package's tree, or an embedded identifier the parser did not
      resolve, in the current tree. */
  function Searched(env: Env, t: TypeExpr, name: string, tree: PackageTree, fieldTree: PackageTree): Option<TypeSpec>
  {
    if ReadsDirectory(env, t) then SearchSpec(fieldTree, t.sel)
    else if t.Ident? && name == "" then SearchSpec(tree, t.name)
    else None
  }

  /** The entries field i adds to the map, in the order the Go code works
      them out: resolve the type (parsing the aliased directory of a
      selector, fatal if that fails), apply the json name or skip, parse the
      es tag (fatal if malformed); then Entries. */
  function Contribution(env: Env, spec: TypeSpec, tree: PackageTree, fuel: nat, i: nat): Outcome<Properties>
    requires spec.body.StructType? && i < |spec.body.fields|
    decreases fuel, spec, 0, 1
  {
    var f := spec.body.fields[i];
    match FieldTree(env, f.typ, tree)
    case None => Fatal(ParseDirError(ImportDir(env, f.typ.pkg)))
    case Some(fieldTree) =>
      match NameOf(f)
      case Skipped => Ok(map[])
      case Named(name) =>
        match TagAttributes(f)
        case Fatal(m) => Fatal(m)
        case OutOfFuel => OutOfFuel
        case Ok(es) => Entries(env, spec, tree, fuel, i, fieldTree, name, es)
  }

  /** The entries of a field that is not skipped: a type the parser resolved
      in the same file or a searched one is assembled and nested or
      flattened; otherwise a named field becomes a leaf and an unnamed one
      adds nothing. */
  function Entries(env: Env, spec: TypeSpec, tree: PackageTree, fuel: nat, i: nat,
                   fieldTree: PackageTree, name: string, es: Properties): Outcome<Properties>
    requires spec.body.StructType? && i < |spec.body.fields|
    decreases fuel, spec, 0, 0
  {
    var f := spec.body.fields[i];
    if f.typ.Ident? && f.typ.decl.Some? then
      Place(name, ParseDeclSpec(env, f.typ.decl.value, tree, fuel))
    else
      var found := Searched(env, f.typ, name, tree, fieldTree);
      if found.None? then
        if name == "" then Ok(map[]) else Ok(map[name := Leaf(f.typ, es)])
      else if fuel == 0 then OutOfFuel
      else Place(name, ParseDeclSpec(env, found.value, fieldTree, fuel - 1))
  }

  /** The entries field j adds when it succeeds (none when it fails). */
  function Delta(env: Env, spec: TypeSpec, tree: PackageTree, fuel: nat, j: nat): Properties
    requires spec.body.StructType? && j < |spec.body.fields|
  {
    var c := Contribution(env, spec, tree, fuel, j);
    if c.Ok? then c.value else map[]
  }

  /** The field loop succeeds exactly when every remaining field does. */
  lemma {:induction false} AssembleOk(env: Env, spec: TypeSpec, tree: PackageTree, fuel: nat, i: nat, acc: Properties)
    requires spec.body.StructType? && i <= |spec.body.fields|
    ensures AssembleFrom(env, spec, tree, fuel, i, acc).Ok? ==>
      forall j :: i <= j < |spec.body.fields| ==> Contribution(env, spec, tree, fuel, j).Ok?
    ensures (forall j :: i <= j < |spec.body.fields| ==> Contribution(env, spec, tree, fuel, j).Ok?) ==>
      AssembleFrom(env, spec, tree, fuel, i, acc).Ok?
    decreases |spec.body.fields| - i
  {
    if i < |spec.body.fields| {
      var c := Contribution(env, spec, tree, fuel, i);
      if c.Ok? {
        var next := acc + c.value;
        assert AssembleFrom(env, spec, tree, fuel, i, acc) == AssembleFrom(env, spec, tree, fuel, i + 1, next);
        AssembleOk(env, spec, tree, fuel, i + 1, next);
      } else if c.Fatal? {
        assert AssembleFrom(env, spec, tree, fuel, i, acc) == Fatal(c.msg);
      } else {
        assert AssembleFrom(env, spec, tree, fuel, i, acc) == OutOfFuel;
      }
    }
  }

  /** One step of the field loop: a field that succeeds merges its entries
      into the map, last write winning. */
  lemma AssembleStep(env: Env, spec: TypeSpec, tree: PackageTree, fuel: nat, i: nat, acc: Properties)
    requires spec.body.StructType? && i < |spec.body.fields|
    requires AssembleFrom(env, spec, tree, fuel, i, acc).Ok?
    ensures Contribution(env, spec, tree, fuel, i).Ok?
    ensures AssembleFrom(env, spec, tree, fuel, i, acc) ==
      AssembleFrom(env, spec, tree, fuel, i + 1, acc + Delta(env, spec, tree, fuel, i))
  {
  }

  /** Maps merged in order, each overwriting the keys it shares with the
      ones before. */
  function MergeAll(acc: Properties, ds: seq<Properties>): Properties
    decreases |ds|
  {
    if ds == [] then acc else MergeAll(acc + ds[0], ds[1..])
  }

  /** When every remaining field contributes, the loop's result is their
      contributions merged in declared order. */
  lemma {:induction false} AssembleMerges(env: Env, spec: TypeSpec, tree: PackageTree, fuel: nat, i: nat,
                                          acc: Properties, ds: seq<Properties>)
    requires spec.body.StructType? && i <= |spec.body.fields| == |ds|
    requires forall j :: i <= j < |ds| ==> Contribution(env, spec, tree, fuel, j) == Ok(ds[j])
    ensures AssembleFrom(env, spec, tree, fuel, i, acc) == Ok(MergeAll(acc, ds[i..]))
    decreases |ds| - i
  {
    if i < |ds| {
      AssembleMerges(env, spec, tree, fuel, i + 1, acc + ds[i], ds);
      assert ds[i..][1..] == ds[i + 1..];
    }
  }

  /** The keys of a successful loop are those of `acc` and of the fields'
      contributions, and a key no field writes keeps acc's value. */
  lemma {:induction false} AssembleKeys(env: Env, spec: TypeSpec, tree: PackageTree, fuel: nat, i: nat, acc: Properties)
    requires spec.body.StructType? && i <= |spec.body.fields|
    requires AssembleFrom(env, spec, tree, fuel, i, acc).Ok?
    ensures var n := |spec.body.fields|;
            var m := AssembleFrom(env, spec, tree, fuel, i, acc).value;
      && (forall k :: k in m <==> k in acc || exists j :: i <= j < n && k in Delta(env, spec, tree, fuel, j))
      && (forall k :: k in acc && (forall j :: i <= j < n ==> k !in Delta(env, spec, tree, fuel, j)) ==> m[k] == acc[k])
    decreases |spec.body.fields| - i
  {
    if i < |spec.body.fields| {
      var d := Delta(env, spec, tree, fuel, i);
      AssembleStep(env, spec, tree, fuel, i, acc);
      AssembleKeys(env, spec, tree, fuel, i + 1, acc + d);
    }
  }

  /** Last write wins: in a successful loop, a key some field writes has the
      value the LAST field writing it gave it. */
  lemma {:induction false} AssembleLastWins(env: Env, spec: TypeSpec, tree: PackageTree, fuel: nat, i: nat, acc: Properties, j: nat, k: string)
    requires spec.body.StructType? && i <= j < |spec.body.fields|
    requires AssembleFrom(env, spec, tree, fuel, i, acc).Ok?
    requires k in Delta(env, spec, tree, fuel, j)
    requires forall l :: j < l < |spec.body.fields| ==> k !in Delta(env, spec, tree, fuel, l)
    ensures k in AssembleFrom(env, spec, tree, fuel, i, acc).value
    ensures AssembleFrom(env, spec, tree, fuel, i, acc).value[k] == Delta(env, spec, tree, fuel, j)[k]
    decreases |spec.body.fields| - i
  {
    var d := Delta(env, spec, tree, fuel, i);
    AssembleStep(env, spec, tree, fuel, i, acc);
    if i < j {
      AssembleLastWins(env, spec, tree, fuel, i + 1, acc + d, j, k);
    } else {
      AssembleKeys(env, spec, tree, fuel, i + 1, acc + d);
    }
  }

  /** A field whose json tag is "-" adds nothing, and its es tag is never
      read; only the directory parse of a selector type, which comes first,
      can still stop the run. */
  lemma SkippedField(env: Env, spec: TypeSpec, tree: PackageTree, fuel: nat, i: nat)
    requires spec.body.StructType? && i < |spec.body.fields|
    requires NameOf(spec.body.fields[i]).Skipped?
    ensures var t := spec.body.fields[i].typ;
      Contribution(env, spec, tree, fuel, i) ==
        if ReadsDirectory(env, t) && env.parseDir(ImportDir(env, t.pkg)).None?
        then Fatal(ParseDirError(ImportDir(env, t.pkg)))
        else Ok(map[])
  {
  }

  /** A malformed es tag on a field that is not skipped is fatal for the
      whole declaration, even when the field's type resolves to a struct. */
  lemma MalformedEsTagIsFatal(env: Env, spec: TypeSpec, tree: PackageTree, fuel: nat, i: nat)
    requires spec.body.StructType? && i < |spec.body.fields|
    requires NameOf(spec.body.fields[i]).Named?
    requires TagAttributes(spec.body.fields[i]).Fatal?
    ensures Contribution(env, spec, tree, fuel, i).Fatal?
    ensures !ParseDeclSpec(env, spec, tree, fuel).Ok?
  {
    AssembleOk(env, spec, tree, fuel, 0, map[]);
  }

  /** A named field whose type does not resolve to a declaration becomes
      name -> {"type": parseType(f)} with its es attributes laid on top. */
  lemma LeafField(env: Env, spec: TypeSpec, tree: PackageTree, fuel: nat, i: nat, name: string, es: Properties)
    requires spec.body.StructType? && i < |spec.body.fields|
    requires var f := spec.body.fields[i];
      && NameOf(f) == Named(name) && name != ""
      && TagAttributes(f) == Ok(es)
      && !(f.typ.Ident? && f.typ.decl.Some?)
      && (ReadsDirectory(env, f.typ) ==>
            var dir := env.parseDir(ImportDir(env, f.typ.pkg));
            dir.Some? && SearchSpec(dir.value, f.typ.sel).None?)
    ensures Contribution(env, spec, tree, fuel, i) == Ok(map[name := Leaf(spec.body.fields[i].typ, es)])
  {
  }

  /** Without an es tag a leaf is exactly {"type": parseType(f)}; an es
      `type` attribute replaces the inferred type. */
  lemma LeafAttributes(f: Field, es: Properties)
    ensures f.tag.None? ==> TagAttributes(f) == Ok(map[]) && Leaf(f.typ, map[]) == Obj(map["type" := Str(ParseType(f.typ))])
    ensures "type" in es ==> Leaf(f.typ, es).props["type"] == es["type"]
  {
  }

  /** A field left without a name (embedded, or tagged without a json key)
      whose type resolves nowhere adds nothing to the map. */
  lemma UnnamedLeafVanishes(env: Env, spec: TypeSpec, tree: PackageTree, fuel: nat, i: nat)
    requires spec.body.StructType? && i < |spec.body.fields|
    requires var f := spec.body.fields[i];
      && NameOf(f) == Named("")
      && TagAttributes(f).Ok?
      && !(f.typ.Ident? && f.typ.decl.Some?)
      && !ReadsDirectory(env, f.typ)
      && !(f.typ.Ident? && SearchSpec(tree, f.typ.name).Some?)
    ensures Contribution(env, spec, tree, fuel, i) == Ok(map[])
  {
  }

  /** An embedded identifier the parser left unresolved is searched for by
      name in the current tree; the declaration found there is assembled
      against that same tree and its entries are merged flat. */
  lemma SearchedEmbeddedField(env: Env, spec: TypeSpec, tree: PackageTree, fuel: nat, i: nat,
                              found: TypeSpec, ext: Option<Properties>)
    requires spec.body.StructType? && i < |spec.body.fields| && fuel > 0
    requires var f := spec.body.fields[i];
      && NameOf(f) == Named("")
      && TagAttributes(f).Ok?
      && f.typ.Ident? && f.typ.decl.None?
      && SearchSpec(tree, f.typ.name) == Some(found)
      && ParseDeclSpec(env, found, tree, fuel - 1) == Ok(ext)
    ensures Contribution(env, spec, tree, fuel, i) == Ok(if ext.Some? then ext.value else map[])
  {
  }

  /** At the top level the tree is nil, so an embedded identifier the
      parser did not resolve finds nothing and adds no entries. */
  lemma TopLevelUnresolvedEmbedded(env: Env, spec: TypeSpec, fuel: nat, i: nat)
    requires spec.body.StructType? && i < |spec.body.fields|
    requires var f := spec.body.fields[i];
      && NameOf(f) == Named("")
      && TagAttributes(f).Ok?
      && f.typ.Ident? && f.typ.decl.None?
    ensures Contribution(env, spec, [], fuel, i) == Ok(map[])
  {
  }

  /** A field whose identifier the parser resolved to a declaration of the
      same file: under a name it nests that declaration's map as
      {"properties": ...}; without one its entries are merged flat into the
      parent. */
  lemma LocalStructField(env: Env, spec: TypeSpec, tree: PackageTree, fuel: nat, i: nat, name: string, ext: Option<Properties>)
    requires spec.body.StructType? && i < |spec.body.fields|
    requires var f := spec.body.fields[i];
      && NameOf(f) == Named(name)
      && TagAttributes(f).Ok?
      && f.typ.Ident? && f.typ.decl.Some?
      && ParseDeclSpec(env, f.typ.decl.value, tree, fuel) == Ok(ext)
    ensures name != "" ==> Contribution(env, spec, tree, fuel, i) == Ok(map[name := Nested(ext)])
    ensures name == "" ==> Contribution(env, spec, tree, fuel, i) == Ok(if ext.Some? then ext.value else map[])
  {
  }

  /** A selector field whose package directory declares the type: the
      declaration found there is assembled against that directory's tree and
      nested under the field's name, or flattened when it has none. */
  lemma SelectorStructField(env: Env, spec: TypeSpec, tree: PackageTree, fuel: nat, i: nat,
                            name: string, dirTree: PackageTree, found: TypeSpec, ext: Option<Properties>)
    requires spec.body.StructType? && i < |spec.body.fields| && fuel > 0
    requires var f := spec.body.fields[i];
      && NameOf(f) == Named(name)
      && TagAttributes(f).Ok?
      && ReadsDirectory(env, f.typ)
      && env.parseDir(ImportDir(env, f.typ.pkg)) == Some(dirTree)
      && SearchSpec(dirTree, f.typ.sel) == Some(found)
      && ParseDeclSpec(env, found, dirTree, fuel - 1) == Ok(ext)
    ensures name != "" ==> Contribution(env, spec, tree, fuel, i) == Ok(map[name := Nested(ext)])
    ensures name == "" ==> Contribution(env, spec, tree, fuel, i) == Ok(if ext.Some? then ext.value else map[])
  {
  }

  /** A type that is not a struct gives nil; a struct without fields gives
      an empty map. */
  lemma NonStructAndEmpty(env: Env, name: string, tree: PackageTree, fuel: nat)
    ensures ParseDeclSpec(env, TypeSpec(name, NonStruct), tree, fuel) == Ok(None)
    ensures ParseDeclSpec(env, TypeSpec(name, StructType([])), tree, fuel) == Ok(Some(map[]))
  {
  }

  /** More fuel changes nothing once a run did not run out of it. */
  lemma {:induction false} ParseDeclFuel(env: Env, spec: TypeSpec, tree: PackageTree, fuel: nat, more: nat)
    requires fuel <= more
    requires !ParseDeclSpec(env, spec, tree, fuel).OutOfFuel?
    ensures ParseDeclSpec(env, spec, tree, more) == ParseDeclSpec(env, spec, tree, fuel)
    decreases fuel, spec, 2, 0
  {
    if spec.body.StructType? {
      AssembleFuel(env, spec, tree, fuel, more, 0, map[]);
    }
  }

  lemma {:induction false} AssembleFuel(env: Env, spec: TypeSpec, tree: PackageTree, fuel: nat, more: nat, i: nat, acc: Properties)
    requires fuel <= more
    requires spec.body.StructType? && i <= |spec.body.fields|
    requires !AssembleFrom(env, spec, tree, fuel, i, acc).OutOfFuel?
    ensures AssembleFrom(env, spec, tree, more, i, acc) == AssembleFrom(env, spec, tree, fuel, i, acc)
    decreases fuel, spec, 1, |spec.body.fields| - i
  {
    if i < |spec.body.fields| {
      ContributionFuel(env, spec, tree, fuel, more, i);
      var c := Contribution(env, spec, tree, fuel, i);
      if c.Ok? {
        AssembleFuel(env, spec, tree, fuel, more, i + 1, acc + c.value);
      }
    }
  }

  lemma {:induction false} ContributionFuel(env: Env, spec: TypeSpec, tree: PackageTree, fuel: nat, more: nat, i: nat)
    requires fuel <= more
    requires spec.body.StructType? && i < |spec.body.fields|
    requires !Contribution(env, spec, tree, fuel, i).OutOfFuel?
    ensures Contribution(env, spec, tree, more, i) == Contribution(env, spec, tree, fuel, i)
    decreases fuel, spec, 0, 1
  {
    var f := spec.body.fields[i];
    var fieldTree := FieldTree(env, f.typ, tree);
    if fieldTree.Some? && NameOf(f).Named? && TagAttributes(f).Ok? {
      EntriesFuel(env, spec, tree, fuel, more, i, fieldTree.value, NameOf(f).name, TagAttributes(f).value);
    }
  }

  lemma {:induction false} EntriesFuel(env: Env, spec: TypeSpec, tree: PackageTree, fuel: nat, more: nat, i: nat,
                                       fieldTree: PackageTree, name: string, es: Properties)
    requires fuel <= more
    requires spec.body.StructType? && i < |spec.body.fields|
    requires !Entries(env, spec, tree, fuel, i, fieldTree, name, es).OutOfFuel?
    ensures Entries(env, spec, tree, more, i, fieldTree, name, es) == Entries(env, spec, tree, fuel, i, fieldTree, name, es)
    decreases fuel, spec, 0, 0
  {
    var f := spec.body.fields[i];
    if f.typ.Ident? && f.typ.decl.Some? {
      ParseDeclFuel(env, f.typ.decl.value, tree, fuel, more);
    } else {
      var found := Searched(env, f.typ, name, tree, fieldTree);
      if found.Some? {
        ParseDeclFuel(env, found.value, fieldTree, fuel - 1, more - 1);
      }
    }
  }
}
