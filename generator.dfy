/** The Generator of generator.go: its import table, exploderBaseDir, the
    imperative ParseDecl (proved to compute Assembler.ParseDeclSpec) and
    Generate, which turns one parsed source file into its mapping document. */
module Generator {
  import opened Wrappers
  import opened Strings
  import opened Ast
  import opened Types
  import opened Props
  import opened Tags
  import opened Resolver
  import opened Assembler

  /** What Generate reads from outside: parser.ParseFile and parser.ParseDir
      (None when the parser fails) and isDirectory, i.e. os.Stat. */
  datatype FileSystem = FileSystem(
    parseFile: string -> Option<SourceFile>,
    parseDir: string -> Option<PackageTree>,
    isDirectory: string -> bool)

  /** The file Generate writes and the document it writes there. */
  datatype Output = Output(path: string, document: Value)

  /** The doc comment line that marks a declaration for the generator. */
  const Marker := "// elastic:mappings"

  const IndexOutOfRange := "index out of range"

  function ParseFileError(fileName: string): string
  {
    "cannot parse file " + fileName
  }

  /** The alias of an import: its explicit name, else the last segment of
      its path. */
  function Alias(im: ImportSpec): string
  {
    match im.name
    case Some(n) => n
    case None =>
      var pathSlice := Split(im.path, '/');
      pathSlice[|pathSlice| - 1]
  }

  /** An implicit alias is the text after the last '/' of the path. */
  lemma AliasIsLastSegment(im: ImportSpec)
    requires im.name.None?
    ensures var a := Alias(im);
      && '/' !in a
      && |a| <= |im.path| && im.path[|im.path| - |a|..] == a
      && ('/' in im.path ==> |a| < |im.path| && im.path[|im.path| - |a| - 1] == '/')
  {
    SplitLast(im.path, '/');
  }

  /** The import table Generate fills: alias to path, a later import
      overwriting an earlier one with the same alias. */
  function ImportTable(ims: seq<ImportSpec>): map<string, string>
    decreases |ims|
  {
    if ims == [] then map[]
    else
      var last := ims[|ims| - 1];
      ImportTable(ims[..|ims| - 1])[Alias(last) := last.path]
  }

  /** One more import enters the table under its alias. */
  lemma ImportTableSnoc(ims: seq<ImportSpec>, im: ImportSpec)
    ensures ImportTable(ims + [im]) == ImportTable(ims)[Alias(im) := im.path]
  {
    assert (ims + [im])[..|ims|] == ims;
  }

  /** The keys of the table are the aliases of the imports, and each maps to
      the path of the last import with that alias. */
  lemma {:induction false} ImportTableSpec(ims: seq<ImportSpec>)
    ensures forall a :: a in ImportTable(ims) <==> exists i :: 0 <= i < |ims| && Alias(ims[i]) == a
    ensures forall i :: 0 <= i < |ims| && (forall l :: i < l < |ims| ==> Alias(ims[l]) != Alias(ims[i])) ==>
      Alias(ims[i]) in ImportTable(ims) && ImportTable(ims)[Alias(ims[i])] == ims[i].path
    decreases |ims|
  {
    if ims != [] {
      var init := ims[..|ims| - 1];
      ImportTableSpec(init);
      assert forall i :: 0 <= i < |init| ==> init[i] == ims[i];
    }
  }

  /** Where the first segment of an import path first occurs in the file
      name. */
  function Anchor(fileName: string, path: string): int
  {
    Index(fileName, Split(path, '/')[0])
  }

  /** The prefixes exploderBaseDir may choose, since Go visits the map in no
      fixed order: the file name up to the anchor of some import whose anchor
      is positive, or "" when no import has one. */
  ghost predicate PrefixRule(fileName: string, imports: map<string, string>, prefix: string)
  {
    if exists k :: k in imports && Anchor(fileName, imports[k]) > 0
    then exists k :: k in imports && 0 < Anchor(fileName, imports[k]) && prefix == fileName[..Anchor(fileName, imports[k])]
    else prefix == ""
  }

  /** The table after exploderBaseDir with a chosen prefix: the imports whose
      prefixed path is a directory, rewritten to that path; the others are
      dropped. */
  function Exploded(imports: map<string, string>, prefix: string, isDirectory: string -> bool): (r: map<string, string>)
    ensures r.Keys <= imports.Keys
  {
    map k | k in imports && isDirectory(prefix + imports[k]) :: prefix + imports[k]
  }

  /** A doc comment marks a declaration when one of its lines contains the
      marker (regexp.MatchString on a pattern with no special characters). */
  predicate IsMappings(doc: seq<string>)
  {
    exists i :: 0 <= i < |doc| && Contains(doc[i], Marker)
  }

  /** The marker loop of Generate. */
  method HasMarker(doc: seq<string>) returns (isMappings: bool)
    ensures isMappings <==> IsMappings(doc)
  {
    isMappings := false;
    for i := 0 to |doc|
      invariant forall j :: 0 <= j < i ==> !Contains(doc[j], Marker)
    {
      var idx := Index(doc[i], Marker);
      if idx >= 0 {
        isMappings := true;
        break;
      }
    }
  }

  /** A declaration Generate assembles: marked, with a type spec first. */
  ghost predicate MarkedTypeDecl(d: Decl)
  {
    d.GenDecl? && IsMappings(d.doc) && d.specs != [] && d.specs[0].TypeItem?
  }

  /** The declaration loop of Generate from `acc` on: each marked general
      declaration reassigns the properties to ParseDecl of its first spec
      when that is a type spec (the `break` there only leaves the switch);
      a marked declaration without specs panics. */
  function MarkedProperties(env: Env, decls: seq<Decl>, fuel: nat, acc: Option<Properties>): Outcome<Option<Properties>>
    decreases |decls|
  {
    if decls == [] then Ok(acc)
    else
      var d := decls[0];
      if !(d.GenDecl? && IsMappings(d.doc)) then MarkedProperties(env, decls[1..], fuel, acc)
      else if d.specs == [] then Fatal(IndexOutOfRange)
      else if !d.specs[0].TypeItem? then MarkedProperties(env, decls[1..], fuel, acc)
      else
        match ParseDeclSpec(env, d.specs[0].ts, [], fuel)
        case Ok(p) => MarkedProperties(env, decls[1..], fuel, p)
        case Fatal(m) => Fatal(m)
        case OutOfFuel => OutOfFuel
  }

  /** Only the last marked type declaration counts: the document holds its
      properties, whatever the earlier ones gave. */
  lemma {:induction false} LastMarkedWins(env: Env, decls: seq<Decl>, fuel: nat, acc: Option<Properties>, j: nat)
    requires MarkedProperties(env, decls, fuel, acc).Ok?
    requires j < |decls| && MarkedTypeDecl(decls[j])
    requires forall l :: j < l < |decls| ==> !MarkedTypeDecl(decls[l])
    ensures ParseDeclSpec(env, decls[j].specs[0].ts, [], fuel) == Ok(MarkedProperties(env, decls, fuel, acc).value)
    decreases |decls|
  {
    var d := decls[0];
    if j > 0 {
      var acc' :|
        MarkedProperties(env, decls, fuel, acc) == MarkedProperties(env, decls[1..], fuel, acc');
      assert forall l :: j - 1 < l < |decls[1..]| ==> decls[1..][l] == decls[l + 1];
      LastMarkedWins(env, decls[1..], fuel, acc', j - 1);
    } else {
      var p := ParseDeclSpec(env, d.specs[0].ts, [], fuel).value;
      assert forall l :: 0 <= l < |decls[1..]| ==> decls[1..][l] == decls[l + 1];
      UnmarkedKeep(env, decls[1..], fuel, p);
    }
  }

  /** Declarations none of which is a marked type declaration leave the
      properties as they were. */
  lemma {:induction false} UnmarkedKeep(env: Env, decls: seq<Decl>, fuel: nat, acc: Option<Properties>)
    requires MarkedProperties(env, decls, fuel, acc).Ok?
    requires forall l :: 0 <= l < |decls| ==> !MarkedTypeDecl(decls[l])
    ensures MarkedProperties(env, decls, fuel, acc) == Ok(acc)
    decreases |decls|
  {
    if decls != [] {
      assert forall l :: 0 <= l < |decls[1..]| ==> decls[1..][l] == decls[l + 1];
      UnmarkedKeep(env, decls[1..], fuel, acc);
    }
  }

  /** The output path: the piece of the file name before its last '.' gets
      "_<suffix>.json" and the extension is dropped; a name without '.'
      panics (None). */
  function OutputName(fileName: string, suffix: string): Option<string>
  {
    var pieces := Split(fileName, '.');
    var n := |pieces|;
    if n < 2 then None
    else Some(Join(pieces[..n - 2] + [pieces[n - 2] + "_" + suffix + ".json"], '.'))
  }

  /** `dir/name.go` is written to `dir/name_<suffix>.json`; a file name with
      no '.' at all has no output name. */
  lemma OutputNameSpec(stem: string, ext: string, suffix: string)
    requires '.' !in ext
    ensures OutputName(stem + "." + ext, suffix) == Some(stem + "_" + suffix + ".json")
    ensures '.' !in stem ==> OutputName(stem, suffix) == None
  {
    var x := "_" + suffix + ".json";
    assert stem + "." + ext == stem + ['.'] + ext;
    SplitConcat(stem, ext, '.');
    var ps := Split(stem, '.');
    assert Split(ext, '.') == [ext];
    var pieces := Split(stem + "." + ext, '.');
    assert pieces == ps + [ext];
    var n := |pieces|;
    assert n == |ps| + 1 && n >= 2;
    assert pieces[..n - 2] == ps[..|ps| - 1];
    assert pieces[n - 2] == ps[|ps| - 1];
    assert pieces[n - 2] + "_" + suffix + ".json" == ps[|ps| - 1] + x;
    JoinExtendLast(ps, x, '.');
    JoinSplit(stem, '.');
    assert Join(pieces[..n - 2] + [pieces[n - 2] + "_" + suffix + ".json"], '.') == stem + x;
    assert stem + x == stem + "_" + suffix + ".json";
  }

  /** The document written for the assembled properties. */
  function Document(props: Option<Properties>): Value
  {
    Obj(map["mappings" := Obj(map["properties" := if props.Some? then Obj(props.value) else Null])])
  }

  /** What Generate produces once its import table is final. */
  function Emit(env: Env, file: SourceFile, fileName: string, suffix: string, fuel: nat): Outcome<Output>
  {
    match MarkedProperties(env, file.decls, fuel, Some(map[]))
    case Fatal(m) => Fatal(m)
    case OutOfFuel => OutOfFuel
    case Ok(props) =>
      match OutputName(fileName, suffix)
      case None => Fatal(IndexOutOfRange)
      case Some(out) => Ok(Output(out, Document(props)))
  }

  /** The first loop of exploderBaseDir: visiting the imports in map order,
      stop at the first path whose first segment occurs in the file name past
      position 0 and take the file name before that occurrence. */
  method BasePrefix(fileName: string, imports: map<string, string>) returns (prefix: string)
    ensures PrefixRule(fileName, imports, prefix)
  {
    prefix := "";
    var visit := imports.Keys;
    while visit != {}
      invariant visit <= imports.Keys
      invariant forall k :: k in imports && k !in visit ==> Anchor(fileName, imports[k]) <= 0
      decreases visit
    {
      var k :| k in visit;
      var somePath := imports[k];
      var idx := Index(fileName, Split(somePath, '/')[0]);
      if idx > 0 {
        prefix := fileName[..idx];
        assert k in imports && 0 < Anchor(fileName, imports[k]) && prefix == fileName[..Anchor(fileName, imports[k])];
        return;
      }
      visit := visit - {k};
    }
  }

  /** The second loop of exploderBaseDir, on the table it rewrites: each
      entry whose prefixed path is a directory is rewritten to that path and
      every other entry is deleted. */
  method Rewrite(table: map<string, string>, prefix: string, isDirectory: string -> bool)
    returns (r: map<string, string>)
    ensures r == Exploded(table, prefix, isDirectory)
  {
    r := table;
    var keys := table.Keys;
    while keys != {}
      invariant keys <= table.Keys && r.Keys <= table.Keys
      invariant forall k :: k in keys ==> k in r && r[k] == table[k]
      invariant forall k :: k in table && k !in keys ==> (k in r <==> isDirectory(prefix + table[k]))
      invariant forall k :: k in table && k !in keys && k in r ==> r[k] == prefix + table[k]
      decreases keys
    {
      var k :| k in keys;
      var path := r[k];
      if isDirectory(prefix + path) {
        r := r[k := prefix + path];
      } else {
        r := r - {k};
      }
      keys := keys - {k};
    }
  }

  class Generator {
    var suffix: string
    var imports: map<string, string>

    /** new(Generator): the zero value. */
    constructor ()
      ensures suffix == "" && imports == map[]
    {
      suffix := "";
      imports := map[];
    }

    method SetSuffix(suffix: string)
      modifies this
      ensures this.suffix == suffix && imports == old(imports)
    {
      this.suffix := suffix;
    }

    /** Generate: parse the file, fill the import table from its imports,
        rewrite the table against the file's directory, assemble the
        properties of the last marked type declaration and name the output
        after the file. */
    method Generate(fileName: string, fs: FileSystem, fuel: nat) returns (r: Outcome<Output>)
      modifies this
      ensures suffix == old(suffix)
      ensures fs.parseFile(fileName).None? ==> r == Fatal(ParseFileError(fileName)) && imports == old(imports)
      ensures fs.parseFile(fileName).Some? ==>
        var file := fs.parseFile(fileName).value;
        var table := ImportTable(file.imports);
        && (exists prefix :: PrefixRule(fileName, table, prefix) && imports == Exploded(table, prefix, fs.isDirectory))
        && r == Emit(Env(imports, fs.parseDir), file, fileName, suffix, fuel)
    {
      var parsed := fs.parseFile(fileName);
      if parsed.None? {
        return Fatal(ParseFileError(fileName));
      }
      var file := parsed.value;
      FillImports(file.imports);
      ExploderBaseDir(fileName, fs.isDirectory);
      var assembled := CollectProperties(file.decls, fs.parseDir, fuel);
      match assembled {
        case Fatal(m) => return Fatal(m);
        case OutOfFuel => return OutOfFuel;
        case Ok(properties) =>
          match OutputName(fileName, suffix) {
            case None => return Fatal(IndexOutOfRange);
            case Some(outputName) => return Ok(Output(outputName, Document(properties)));
          }
      }
    }

    /** The import loop of Generate: a fresh table, each import entered under
        its alias. */
    method FillImports(ims: seq<ImportSpec>)
      modifies this
      ensures imports == ImportTable(ims) && suffix == old(suffix)
    {
      imports := map[];
      for i := 0 to |ims|
        invariant imports == ImportTable(ims[..i]) && suffix == old(suffix)
      {
        var im := ims[i];
        var name := Alias(im);
        assert ims[..i + 1] == ims[..i] + [im];
        ImportTableSnoc(ims[..i], im);
        imports := imports[name := im.path];
      }
      assert ims[..|ims|] == ims;
    }

    /** The declaration loop of Generate. */
    method CollectProperties(decls: seq<Decl>, parseDir: string -> Option<PackageTree>, fuel: nat)
      returns (r: Outcome<Option<Properties>>)
      ensures r == MarkedProperties(Env(imports, parseDir), decls, fuel, Some(map[]))
    {
      var properties: Option<Properties> := Some(map[]);
      ghost var env := Env(imports, parseDir);
      for i := 0 to |decls|
        invariant MarkedProperties(env, decls, fuel, Some(map[])) == MarkedProperties(env, decls[i..], fuel, properties)
      {
        var d := decls[i];
        assert decls[i..][1..] == decls[i + 1..];
        if d.GenDecl? {
          var isMappings := HasMarker(d.doc);
          if isMappings {
            if d.specs == [] {
              return Fatal(IndexOutOfRange);
            }
            if d.specs[0].TypeItem? {
              var sub := ParseDecl(d.specs[0].ts, [], parseDir, fuel);
              match sub {
                case Ok(p) => properties := p;
                case Fatal(m) => return Fatal(m);
                case OutOfFuel => return OutOfFuel;
              }
            }
          }
        }
      }
      return Ok(properties);
    }

    /** exploderBaseDir: choose the base prefix, then keep only the imports
        whose prefixed path is a directory, rewritten to that path. */
    method ExploderBaseDir(fileName: string, isDirectory: string -> bool)
      modifies this
      ensures suffix == old(suffix)
      ensures exists prefix :: PrefixRule(fileName, old(imports), prefix) && imports == Exploded(old(imports), prefix, isDirectory)
    {
      if |imports| == 0 {
        assert PrefixRule(fileName, imports, "") && imports == Exploded(imports, "", isDirectory);
        return;
      }
      var prefix := BasePrefix(fileName, imports);
      imports := Rewrite(imports, prefix, isDirectory);
    }

    /** ParseDecl, field loop and all, computes the property map its
        specification gives for the current import table. */
    method ParseDecl(typeSpec: TypeSpec, fileTree: PackageTree, parseDir: string -> Option<PackageTree>, fuel: nat)
      returns (r: Outcome<Option<Properties>>)
      ensures r == ParseDeclSpec(Env(imports, parseDir), typeSpec, fileTree, fuel)
      decreases fuel, typeSpec, 2, 0
    {
      if !typeSpec.body.StructType? {
        return Ok(None);
      }
      ghost var env := Env(imports, parseDir);
      var fields := typeSpec.body.fields;
      var properties: Properties := map[];
      for i := 0 to |fields|
        invariant AssembleFrom(env, typeSpec, fileTree, fuel, 0, map[]) == AssembleFrom(env, typeSpec, fileTree, fuel, i, properties)
      {
        var next := AddField(typeSpec, i, fileTree, parseDir, fuel, properties);
        match next {
          case Ok(p) => properties := p;
          case Fatal(m) => return Fatal(m);
          case OutOfFuel => return OutOfFuel;
        }
      }
      return Ok(Some(properties));
    }

    /** The body of ParseDecl's field loop for field i: the properties after
        it, or the run's end. */
    method AddField(typeSpec: TypeSpec, i: nat, fileTree: PackageTree, parseDir: string -> Option<PackageTree>, fuel: nat,
                    properties: Properties)
      returns (r: Outcome<Properties>)
      requires typeSpec.body.StructType? && i < |typeSpec.body.fields|
      ensures r == match Contribution(Env(imports, parseDir), typeSpec, fileTree, fuel, i)
                   case Ok(d) => Ok(properties + d)
                   case Fatal(m) => Fatal(m)
                   case OutOfFuel => OutOfFuel
      decreases fuel, typeSpec, 0, 1
    {
      ghost var env := Env(imports, parseDir);
      var f := typeSpec.body.fields[i];
      var fieldFileTree := fileTree;
      var ftypeSpec: Option<TypeSpec> := None;
      var searched := false;
      match f.typ {
        case Ident(_, decl) =>
          ftypeSpec := decl;
        case Selector(pkg, sel) =>
          var pv := if pkg in imports then imports[pkg] else "";
          if pv != "" {
            var parsed := parseDir(pv);
            if parsed.None? {
              return Fatal(ParseDirError(pv));
            }
            fieldFileTree := parsed.value;
            ftypeSpec := SearchSpec(fieldFileTree, sel);
            searched := true;
          }
        case ArrayType(_) =>
          ftypeSpec := None;
        case OtherType =>
      }
      var name := DeclaredName(f);
      var esAttributes: Properties := map[];
      if f.tag.Some? {
        var jsonTag := GetOr(f.tag.value.json);
        if jsonTag == "-" {
          assert properties + map[] == properties;
          return Ok(properties);
        } else {
          var jsonTagList := Split(jsonTag, ',');
          name := jsonTagList[0];
        }
        var es := ParseEsTag(f.tag.value);
        match es {
          case Ok(a) => esAttributes := a;
          case Fatal(m) => return Fatal(m);
          case OutOfFuel => return OutOfFuel;
        }
      }
      assert FieldTree(env, f.typ, fileTree) == Some(fieldFileTree);
      assert NameOf(f) == Named(name) && TagAttributes(f) == Ok(esAttributes);
      var entries := FieldEntries(typeSpec, i, fileTree, fieldFileTree, parseDir, fuel, name, esAttributes, ftypeSpec, searched);
      match entries {
        case Ok(result) =>
          // a named field's single entry is assigned, an embedded one's merged
          var merged := Merge(properties, result);
          return Ok(merged);
        case Fatal(m) => return Fatal(m);
        case OutOfFuel => return OutOfFuel;
      }
    }

    /** The rest of the loop body once the field has a name: search an
        unresolved embedded identifier, assemble a resolved type, and build
        the entries the field adds. */
    method FieldEntries(typeSpec: TypeSpec, i: nat, fileTree: PackageTree, fieldFileTree: PackageTree,
                        parseDir: string -> Option<PackageTree>, fuel: nat, name: string, esAttributes: Properties,
                        ftypeSpec: Option<TypeSpec>, searched: bool)
      returns (r: Outcome<Properties>)
      requires typeSpec.body.StructType? && i < |typeSpec.body.fields|
      requires var t := typeSpec.body.fields[i].typ;
        && FieldTree(Env(imports, parseDir), t, fileTree) == Some(fieldFileTree)
        && searched == ReadsDirectory(Env(imports, parseDir), t)
        && ftypeSpec == if t.Ident? then t.decl else if searched then SearchSpec(fieldFileTree, t.sel) else None
      ensures r == Entries(Env(imports, parseDir), typeSpec, fileTree, fuel, i, fieldFileTree, name, esAttributes)
      decreases fuel, typeSpec, 0, 0
    {
      var f := typeSpec.body.fields[i];
      var target := ftypeSpec;
      var found := searched;
      var attributes: Properties := map[];
      var extProperties: Option<Properties> := Some(map[]);
      if name == "" && target.None? && f.typ.Ident? {
        target := SearchSpec(fileTree, f.typ.name);
        found := true;
      }
      if target.Some? {
        var sub: Outcome<Option<Properties>>;
        if !found {
          assert target == f.typ.decl && fieldFileTree == fileTree;
          sub := ParseDecl(target.value, fieldFileTree, parseDir, fuel);
        } else if fuel == 0 {
          return OutOfFuel;
        } else {
          assert target == Searched(Env(imports, parseDir), f.typ, name, fileTree, fieldFileTree);
          sub := ParseDecl(target.value, fieldFileTree, parseDir, fuel - 1);
        }
        assert Entries(Env(imports, parseDir), typeSpec, fileTree, fuel, i, fieldFileTree, name, esAttributes) == Place(name, sub);
        match sub {
          case Ok(e) => extProperties := e;
          case Fatal(m) => return Fatal(m);
          case OutOfFuel => return OutOfFuel;
        }
      }
      if name == "" {
        return Ok(if extProperties.Some? then extProperties.value else map[]);
      } else if target.Some? {
        return Ok(map[name := Obj(map["properties" := if extProperties.Some? then Obj(extProperties.value) else Null])]);
      } else {
        attributes := attributes["type" := Str(ParseType(f.typ))];
        attributes := Merge(attributes, esAttributes);
        return Ok(map[name := Obj(attributes)]);
      }
    }
  }
}
