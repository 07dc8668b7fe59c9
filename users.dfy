/** The User declaration of data/users.go run through the model: the
    document it yields shows the naming, flattening, leaf and es-attribute
    rules together. */
module Users {
  import opened Wrappers
  import opened Strings
  import opened Ast
  import opened Types
  import opened Tags
  import opened Resolver
  import opened Assembler
  import opened Generator

  function JsonTag(name: string): Option<Tag>
  {
    Some(Tag(Some(name), None))
  }

  /** type User2 struct { Pass2 string `json:"pass2"` } */
  function User2Spec(): TypeSpec
  {
    TypeSpec("User2", StructType([Field(["Pass2"], Ident("string", None), JsonTag("pass2"))]))
  }

  /** The marked User declaration. User2 is declared in the same file, so
      the parser resolves the embedded field to it. */
  function UserSpec(): TypeSpec
  {
    TypeSpec("User", StructType([
      Field(["Posts"], Selector("sub_data", "Posts"), JsonTag("posts")),
      Field(["Created"], Selector("time", "Time"), None),
      Field([], Ident("User2", Some(User2Spec())), None),
      Field(["Name"], Ident("string", None), JsonTag("name")),
      Field(["Pass"], Ident("string", None), Some(Tag(Some("pass"), Some("analyzer:ik_smart"))))]))
  }

  function TypeOnly(t: string): Value
  {
    Obj(map["type" := Str(t)])
  }

  /** The es tag of Pass is one comma segment... */
  lemma AnalyzerSegment()
    ensures Split("analyzer:ik_smart", ',') == ["analyzer:ik_smart"]
  {
    assert ',' !in "analyzer:ik_smart";
  }

  /** ...with one ':' in it. */
  lemma AnalyzerPair()
    ensures Split("analyzer:ik_smart", ':') == ["analyzer", "ik_smart"]
  {
    SplitTwo("analyzer", "ik_smart", ':');
    assert "analyzer:ik_smart" == "analyzer" + [':'] + "ik_smart";
  }

  /** The es tag of Pass gives one attribute. */
  lemma AnalyzerTag()
    ensures EsAttributes("analyzer:ik_smart") == Ok(map["analyzer" := Str("ik_smart")])
  {
    AnalyzerSegment();
    AnalyzerPair();
    assert Join(["ik_smart"], ':') == "ik_smart";
    assert EsPairs(["analyzer:ik_smart"], map[]) == EsPairs([], map["analyzer" := Str("ik_smart")]);
  }

  /** A leaf without es attributes holds only its type. */
  lemma PlainLeaf(t: TypeExpr, ty: string)
    requires ParseType(t) == ty
    ensures Leaf(t, map[]) == TypeOnly(ty)
  {
    assert map["type" := Str(ty)] + map[] == map["type" := Str(ty)];
  }

  /** A json tag holding a plain name names the field. */
  lemma JsonName(f: Field, n: string)
    requires f.tag.Some? && f.tag.value.json == Some(n) && ',' !in n && n != "-"
    ensures NameOf(f) == Named(n)
    ensures f.tag.value.es.None? ==> TagAttributes(f) == Ok(map[])
  {
  }

  /** The embedded User2 assembles to its one renamed field. */
  lemma User2Properties(env: Env, tree: PackageTree, fuel: nat)
    ensures ParseDeclSpec(env, User2Spec(), tree, fuel) == Ok(Some(map["pass2" := TypeOnly("text")]))
  {
    var u2 := User2Spec();
    JsonName(u2.body.fields[0], "pass2");
    LeafField(env, u2, tree, fuel, 0, "pass2", map[]);
    PlainLeaf(Ident("string", None), "text");
    assert map[] + map["pass2" := TypeOnly("text")] == map["pass2" := TypeOnly("text")];
    assert AssembleFrom(env, u2, tree, fuel, 0, map[]) == AssembleFrom(env, u2, tree, fuel, 1, map["pass2" := TypeOnly("text")]);
  }

  /** Posts is read from the aliased directory and nested under "posts". */
  lemma PostsContribution(env: Env, dir: string, postsTree: PackageTree, posts: TypeSpec, ext: Option<Properties>, fuel: nat)
    requires fuel >= 1
    requires ImportDir(env, "sub_data") == dir && dir != ""
    requires env.parseDir(dir) == Some(postsTree)
    requires SearchSpec(postsTree, "Posts") == Some(posts)
    requires ParseDeclSpec(env, posts, postsTree, fuel - 1) == Ok(ext)
    ensures Contribution(env, UserSpec(), [], fuel, 0) == Ok(map["posts" := Nested(ext)])
  {
    JsonName(UserSpec().body.fields[0], "posts");
    SelectorStructField(env, UserSpec(), [], fuel, 0, "posts", postsTree, posts, ext);
  }

  /** Created has no tag: its Go name is kept and time.Time becomes a date. */
  lemma CreatedContribution(env: Env, fuel: nat)
    requires ImportDir(env, "time") == ""
    ensures Contribution(env, UserSpec(), [], fuel, 1) == Ok(map["Created" := TypeOnly("date")])
  {
    LeafField(env, UserSpec(), [], fuel, 1, "Created", map[]);
    PlainLeaf(Selector("time", "Time"), "date");
  }

  /** User2 is embedded without a tag: its entries are merged flat. */
  lemma User2Contribution(env: Env, fuel: nat)
    ensures Contribution(env, UserSpec(), [], fuel, 2) == Ok(map["pass2" := TypeOnly("text")])
  {
    User2Properties(env, [], fuel);
    LocalStructField(env, UserSpec(), [], fuel, 2, "", Some(map["pass2" := TypeOnly("text")]));
  }

  lemma NameContribution(env: Env, fuel: nat)
    ensures Contribution(env, UserSpec(), [], fuel, 3) == Ok(map["name" := TypeOnly("text")])
  {
    JsonName(UserSpec().body.fields[3], "name");
    LeafField(env, UserSpec(), [], fuel, 3, "name", map[]);
    PlainLeaf(Ident("string", None), "text");
  }

  /** Pass is a leaf whose es attributes sit beside its type. */
  lemma PassContribution(env: Env, fuel: nat)
    ensures Contribution(env, UserSpec(), [], fuel, 4) == Ok(map["pass" := Obj(map["type" := Str("text"), "analyzer" := Str("ik_smart")])])
  {
    PassLeaf(env, fuel);
    PassLeafValue();
  }

  lemma PassLeafValue()
    ensures Leaf(Ident("string", None), map["analyzer" := Str("ik_smart")])
      == Obj(map["type" := Str("text"), "analyzer" := Str("ik_smart")])
  {
    assert map["type" := Str("text")] + map["analyzer" := Str("ik_smart")]
      == map["type" := Str("text"), "analyzer" := Str("ik_smart")];
  }

  lemma PassLeaf(env: Env, fuel: nat)
    ensures Contribution(env, UserSpec(), [], fuel, 4) == Ok(map["pass" := Leaf(Ident("string", None), map["analyzer" := Str("ik_smart")])])
  {
    AnalyzerTag();
    JsonName(UserSpec().body.fields[4], "pass");
    LeafField(env, UserSpec(), [], fuel, 4, "pass", map["analyzer" := Str("ik_smart")]);
  }

  /** Five contributions merged in order, one unfolding at a time. */
  lemma MergeFive(a: Properties, b: Properties, c: Properties, d: Properties, e: Properties)
    ensures MergeAll(map[], [a, b, c, d, e]) == map[] + a + b + c + d + e
  {
    assert [a, b, c, d, e][1..] == [b, c, d, e];
    assert [b, c, d, e][1..] == [c, d, e];
    assert [c, d, e][1..] == [d, e];
    assert [d, e][1..] == [e];
    assert [e][1..] == [];
    assert MergeAll(map[], [a, b, c, d, e]) == MergeAll(map[] + a, [b, c, d, e]);
    assert MergeAll(map[] + a, [b, c, d, e]) == MergeAll(map[] + a + b, [c, d, e]);
    assert MergeAll(map[] + a + b, [c, d, e]) == MergeAll(map[] + a + b + c, [d, e]);
    assert MergeAll(map[] + a + b + c, [d, e]) == MergeAll(map[] + a + b + c + d, [e]);
    assert MergeAll(map[] + a + b + c + d, [e]) == MergeAll(map[] + a + b + c + d + e, []);
  }

  /** A struct of five fields that all contribute assembles to their
      contributions merged in order. */
  lemma AssembleFive(env: Env, spec: TypeSpec, tree: PackageTree, fuel: nat,
                     a: Properties, b: Properties, c: Properties, d: Properties, e: Properties)
    requires spec.body.StructType? && |spec.body.fields| == 5
    requires Contribution(env, spec, tree, fuel, 0) == Ok(a)
    requires Contribution(env, spec, tree, fuel, 1) == Ok(b)
    requires Contribution(env, spec, tree, fuel, 2) == Ok(c)
    requires Contribution(env, spec, tree, fuel, 3) == Ok(d)
    requires Contribution(env, spec, tree, fuel, 4) == Ok(e)
    ensures ParseDeclSpec(env, spec, tree, fuel) == Ok(Some(map[] + a + b + c + d + e))
  {
    var ds := [a, b, c, d, e];
    assert ds[0..] == ds;
    AssembleMerges(env, spec, tree, fuel, 0, map[], ds);
    MergeFive(a, b, c, d, e);
  }

  /** The document of User: the five keys, in no particular order. */
  function UserDocument(posts: Value): Properties
  {
    map[
      "posts" := posts,
      "Created" := TypeOnly("date"),
      "pass2" := TypeOnly("text"),
      "name" := TypeOnly("text"),
      "pass" := Obj(map["type" := Str("text"), "analyzer" := Str("ik_smart")])]
  }

  /** User's five contributions, merged, are its document. */
  lemma UserDocumentMerge(posts: Value)
    ensures map[] + map["posts" := posts] + map["Created" := TypeOnly("date")] + map["pass2" := TypeOnly("text")]
      + map["name" := TypeOnly("text")] + map["pass" := Obj(map["type" := Str("text"), "analyzer" := Str("ik_smart")])]
      == UserDocument(posts)
  {
  }

  /** With the sub_data alias naming a directory whose package declares
      Posts, and time naming none (the rewritten table drops it): Posts is
      nested under "posts", Created keeps its Go name and becomes a date,
      User2's field is flattened into User, and pass carries its analyzer. */
  lemma UserProperties(env: Env, dir: string, postsTree: PackageTree, posts: TypeSpec, ext: Option<Properties>, fuel: nat)
    requires fuel >= 1
    requires ImportDir(env, "sub_data") == dir && dir != "" && ImportDir(env, "time") == ""
    requires env.parseDir(dir) == Some(postsTree)
    requires SearchSpec(postsTree, "Posts") == Some(posts)
    requires ParseDeclSpec(env, posts, postsTree, fuel - 1) == Ok(ext)
    ensures ParseDeclSpec(env, UserSpec(), [], fuel) == Ok(Some(UserDocument(Nested(ext))))
  {
    var u := UserSpec();
    var nested := map["posts" := Nested(ext)];
    var created := map["Created" := TypeOnly("date")];
    var pass2 := map["pass2" := TypeOnly("text")];
    var name := map["name" := TypeOnly("text")];
    var pass := map["pass" := Obj(map["type" := Str("text"), "analyzer" := Str("ik_smart")])];
    PostsContribution(env, dir, postsTree, posts, ext, fuel);
    CreatedContribution(env, fuel);
    User2Contribution(env, fuel);
    NameContribution(env, fuel);
    PassContribution(env, fuel);
    AssembleFive(env, u, [], fuel, nested, created, pass2, name, pass);
    UserDocumentMerge(Nested(ext));
  }
}
