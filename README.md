# elastic-mapping-generator, modelled in Dafny

elastic-mapping-generator reads a Go source file and writes an
Elasticsearch mapping document. The document describes the struct
declaration that carries a `// elastic:mappings` doc comment. This project
models the generator's core, `generator.go`, and proves what it does.

- **Tags** (`tags.dfy`): how a field is named from its `json` tag, and how
  the `es` tag's `key:value,key:value` language is parsed (`parseEsTag`).
- **Types** (`types.dfy`): the fixed Go-to-Elasticsearch type table, with
  the `"array"` and `"unknown"` fallbacks (`parseType`, `typeMap`).
- **Props** (`props.dfy`): the last-write-wins map union
  (`Properties.Merge`).
- **Resolver** (`resolver.dfy`): finding a type declaration by name in a
  parsed package tree (`searchSpec`).
- **Assembler** (`assembler.dfy`): what `ParseDecl` means, as recursive
  functions. A struct's fields are visited in declared order. Each field is
  either skipped, nested under its name as `{"properties": …}`, flattened
  into its parent, or turned into a leaf `{"type": …}` with the `es`
  attributes laid on top.
- **Generator** (`generator.dfy`): the `Generator` object itself.
  - Its fields are the suffix and the import table.
  - `ParseDecl` is imperative and is proved to compute the Assembler
    functions.
  - `exploderBaseDir` rewrites the import table against a directory
    predicate.
  - `Generate` covers the import aliases, the marker test, the declaration
    loop and the output name.
- **Users** (`users.dfy`): the `User` declaration of `data/users.go` run
  through the model.

Fatal errors are modelled as an `Outcome` value, `Fatal(message)`. This
covers `log.Fatal`, and the index-out-of-range panics on a marked
declaration without specs and on a file name without a '.'. Three things
are parameters of the model:
- the Go parser: `parseFile` gives a `SourceFile` and `parseDir` gives a
  `PackageTree`;
- the `isDirectory` check, i.e. `os.Stat`;
- the identifier resolution the parser performs, stored as the optional
  `decl` of an `Ident`.

Go maps are iterated in no fixed order. A package tree is therefore a
sequence in whatever order Go visited it. The contract of `SearchSpec` is
existential. The prefix that `exploderBaseDir` picks is specified by the
rule `PrefixRule`, which any of the admissible choices satisfies.

Types are resolved in two ways. A type the parser resolved inside the same
file is a sub-term of the field, so that recursion is structural. A type
found by searching (in another package, or an embedded name the parser left
unresolved) costs one unit of `fuel`. Running out of fuel gives `OutOfFuel`,
where the Go program would recurse without end on a cycle between packages.
`ParseDeclFuel` proves that more fuel never changes a result that did not
run out.

Behaviours the model keeps as the code has them:
- An untagged field keeps its declared Go name verbatim: `Created` stays
  `Created` (`Users.CreatedContribution`).
- Only the last marked type declaration of a file ends up in the document.
  The `break` in the declaration loop leaves only the type switch
  (`Generator.LastMarkedWins`).
- A field whose tag has no `json` key gets the empty name. It is then
  handled like an embedded field: it is flattened when its type resolves,
  and otherwise it adds nothing (`Assembler.UnnamedLeafVanishes`).
- Directories of packages found while resolving are looked up through the
  import table of the top-level file, even when a nested package imports
  them under another alias.

## Model

| member | source | states |
|---|---|---|
| Types.ParseType | generator.go:332-346 | an array type is "array"; an identifier, or the name after a selector's dot, found in typeMap gets its typeMap value; the result is "unknown" exactly when the type is not an array and its name is not in typeMap |
| Types.SelectorTimeIsDate | generator.go:128-137 | `time.Time`, under any package alias, maps to "date" |
| Props.Merge | generator.go:141-146 | the keys are the union of both maps; every key of `other` takes other's value; a key only in the receiver keeps its value |
| Tags.ParseEsTag | generator.go:313-328 | the loop over comma segments yields exactly the attribute map `EsAttributes` of the tag's `es` value |
| Tags.EsAttributesSpec | generator.go:316-325 | an empty or missing `es` tag gives no attributes; otherwise the parse is fatal exactly when some comma segment has no ':'; the keys are the segments' texts before their first ':'; each key maps to the rest after that ':' in the last segment with that key |
| Tags.EsPairsFatal | generator.go:319-323 | the segment fold is fatal iff some segment lacks ':', and never gives anything but Ok or Fatal |
| Tags.EsPairsKeys | generator.go:319-325 | when every segment has a ':', the result's keys are the accumulated keys plus the segments' keys, and untouched keys keep their value |
| Tags.EsPairsLastWins | generator.go:324 | a repeated key takes the value of its last segment |
| Tags.NameOf | generator.go:265-283 | a json tag of "-" skips the field; without a tag the declared name is kept (empty for an embedded field); a tag without a json key gives the empty name; otherwise the name is the json value up to its first ',' |
| Resolver.SearchSpec | generator.go:348-368 | the result is None exactly when no type spec of any file of any package in the tree has the name; a found spec has that name and is declared in the tree |
| Resolver.SearchSpecOrderIndependent | generator.go:349-366 | when the tree declares the name at most once, any two visit orders of the same declarations find the same spec |
| Assembler.Leaf | generator.go:304-307 | a leaf's keys are "type" plus the es keys; es values win; without an es "type" key the type is parseType's |
| Assembler.AssembleOk | generator.go:242-309 | the field loop succeeds exactly when every field's contribution succeeds |
| Assembler.AssembleMerges | generator.go:242-309 | when every field contributes, the result is the contributions merged in declared order |
| Assembler.AssembleKeys | generator.go:298-308 | the keys of the assembled map are exactly those the fields write; keys nobody writes keep their value |
| Assembler.AssembleLastWins | generator.go:298-308 | a key written by several fields has the value the last one gave it |
| Assembler.SkippedField | generator.go:251-277 | a field with json "-" adds nothing; only a failed directory parse for its selector type, which happens first, is fatal |
| Assembler.MalformedEsTagIsFatal | generator.go:284 | a malformed es tag on a field that is not skipped makes the whole declaration fatal, even when its type resolves to a struct |
| Assembler.LeafField | generator.go:304-307 | a named field whose type resolves nowhere becomes name -> {"type": parseType(f)} with the es attributes on top |
| Assembler.LeafAttributes | generator.go:304-307 | with no tag the leaf is exactly {"type": parseType(f)}; an es "type" attribute overrides the inferred type |
| Assembler.UnnamedLeafVanishes | generator.go:289-299 | a field with the empty name whose type resolves nowhere contributes nothing |
| Assembler.SearchedEmbeddedField | generator.go:289-299 | an embedded identifier the parser left unresolved is searched for in the current tree; the declaration found is assembled against that tree, and its entries are merged flat into the parent |
| Assembler.TopLevelUnresolvedEmbedded | generator.go:289-299 | in the top-level call (generator.go:209) the tree is nil, so an embedded identifier the parser did not resolve finds no declaration and adds no entries |
| Assembler.LocalStructField | generator.go:247-303 | a field whose identifier resolved in the same file nests that declaration's map under {"properties": …} when named, and merges it flat when unnamed |
| Assembler.SelectorStructField | generator.go:251-303 | a selector type found in its package directory is assembled against that directory's tree, then nested or flattened |
| Assembler.NonStructAndEmpty | generator.go:236-240 | a non-struct type gives nil; a struct with no fields gives an empty map |
| Assembler.ParseDeclFuel | generator.go:296 | more fuel changes nothing once a run did not run out of fuel |
| Generator.AliasIsLastSegment | generator.go:179-184 | an implicit alias contains no '/', is a suffix of the path, and is preceded by the path's last '/' |
| Generator.ImportTableSpec | generator.go:175-186 | the table's keys are exactly the imports' aliases; an alias maps to the path of its last import |
| Generator.HasMarker | generator.go:193-202 | the loop answers true exactly when some doc line contains "// elastic:mappings" |
| Generator.LastMarkedWins | generator.go:189-215 | the document holds the properties of the last marked type declaration, whatever the earlier ones gave |
| Generator.UnmarkedKeep | generator.go:190-205 | declarations that are not marked type declarations leave the properties as they were |
| Generator.OutputNameSpec | generator.go:216-219 | `stem.ext` is written to `stem_<suffix>.json`; a name with no '.' has no output name |
| Generator.BasePrefix | generator.go:151-160 | the prefix is the file name before the first-segment anchor of some import whose anchor is positive, or "" when none has one |
| Generator.Rewrite | generator.go:161-167 | the imports whose prefixed path is a directory are rewritten to that path and all others are deleted |
| Generator.Generator.constructor | generator.go:100 | a new generator has an empty suffix and an empty import table |
| Generator.Generator.SetSuffix | generator.go:123-125 | the suffix is set and the import table is unchanged |
| Generator.Generator.ExploderBaseDir | generator.go:147-168 | for some prefix admitted by PrefixRule, the table becomes the directory-filtered, prefix-rewritten table; the suffix is unchanged |
| Generator.Generator.FillImports | generator.go:175-186 | the table becomes ImportTable of the file's imports |
| Generator.Generator.CollectProperties | generator.go:189-215 | the declaration loop yields MarkedProperties of the declarations, fatal for a marked declaration without specs |
| Generator.Generator.Generate | generator.go:169-219 | an unparsable file is fatal; otherwise the table is the filtered import table and the result is the output path and document `Emit` gives |
| Generator.Generator.ParseDecl | generator.go:235-311 | the imperative field loop computes ParseDeclSpec for the current import table |
| Generator.Generator.AddField | generator.go:242-309 | one iteration of the field loop merges the field's Contribution into the map, or stops with its error |
| Generator.Generator.FieldEntries | generator.go:287-308 | a resolved, named or flattened field's entries are those Entries specifies |
| Users.AnalyzerTag | data/users.go:20 | `es:"analyzer:ik_smart"` gives exactly {analyzer: ik_smart} |
| Users.UserProperties | data/users.go:11-21 | User's document: posts nested, Created a date under its Go name, User2's pass2 flattened, name a text, pass a text with analyzer ik_smart |

## Left out

- `main`, `Usage` and flag parsing (generator.go:63-106) are command-line plumbing. That includes the default suffix "mappings" and making file names absolute with `filepath.Abs`.
- The goroutine per file and the `sync.WaitGroup` (generator.go:94-105) are left out. Each goroutine owns its own Generator, so nothing is shared.
- `parser.ParseFile` and `parser.ParseDir` are the Go parser, a foreign library. They are the `parseFile` and `parseDir` oracles, which give None when the parser reports an error.
- The parser's identifier resolution (`Obj.Decl`) is the `decl` field of `Ident`. A declaration that is not a type spec is None there.
- `isDirectory` and `os.Stat` (generator.go:109-115) are file-system I/O, modelled as the `isDirectory` oracle.
- JSON marshalling and writing the output file (generator.go:220-233) are a library and I/O. The model stops at the document `Value` and the output path.
- `strconv.Unquote` of import paths is taken as already done: an import's path is the unquoted string.
- A field's tag is given as the optional `json` and `es` values that `reflect.StructTag.Get` reads from a backquoted tag literal. A missing key reads as "", as in Go. The raw-text spelling of the tag is not modelled. generator.go:273 only drops the literal's first character and keeps its closing backquote. `StructTag.Get` reads past that backquote harmlessly, so a backquoted tag reads as written. A tag written as a double-quoted string literal (`"json:\"x\""`) still holds its escapes, so `StructTag.Get` finds no key in it. Such a field therefore gets the empty name and its `es` tag is ignored. The model cannot express that spelling.
- `regexp.MatchString` is applied to a pattern with no special characters, so it is modelled as a substring test.
- Go's map iteration order is not modelled. Package trees are sequences, and the prefix choice is specified by `PrefixRule` over all admissible orders.
- Generator.Generator.ParseDecl: recursion through searched types is bounded by `fuel`. A cycle between packages, which makes the Go program recurse until its stack overflows, shows up as `OutOfFuel` instead.
- Props.Merge: returns the updated map instead of mutating the receiver in place. No other alias of the receiver is ever read.
- Generator.Generator.ExploderBaseDir: the rewrite loop works on a copy of the table and stores it at the end, instead of changing entries while ranging over the map. Go's map iteration reaches every entry that is neither deleted nor added during the loop, so the resulting table is the same.
- The messages of fatal errors are placeholders. Only the fact that the run stops is modelled.
