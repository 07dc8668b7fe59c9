/** searchSpec (generator.go:348-368): find a type declaration by name in a
    parsed package tree, visiting packages, files, declarations and specs in
    turn and returning the first match. */
module Resolver {
  import opened Wrappers
  import opened Ast

  /** `t` is one of the type specs of declaration `d`. */
  ghost predicate DeclDeclares(d: Decl, t: TypeSpec)
  {
    d.GenDecl? && TypeItem(t) in d.specs
  }

  ghost predicate FileDeclares(f: SourceFile, t: TypeSpec)
  {
    exists d :: d in f.decls && DeclDeclares(d, t)
  }

  ghost predicate PackageDeclares(p: Package, t: TypeSpec)
  {
    exists f :: f in p.files && FileDeclares(f, t)
  }

  /** `t` is a type spec of some declaration of some file of the tree. */
  ghost predicate TreeDeclares(tree: PackageTree, t: TypeSpec)
  {
    exists p :: p in tree && PackageDeclares(p, t)
  }

  function SearchSpecs(specs: seq<Spec>, name: string): (r: Option<TypeSpec>)
    ensures r.Some? ==> r.value.name == name && TypeItem(r.value) in specs
    ensures r.None? <==> forall t :: TypeItem(t) in specs ==> t.name != name
    decreases |specs|
  {
    if specs == [] then None
    else if specs[0].TypeItem? && specs[0].ts.name == name then Some(specs[0].ts)
    else
      assert forall t :: TypeItem(t) in specs ==> TypeItem(t) == specs[0] || TypeItem(t) in specs[1..];
      SearchSpecs(specs[1..], name)
  }

  function SearchDecls(decls: seq<Decl>, name: string): (r: Option<TypeSpec>)
    ensures r.Some? ==> r.value.name == name && exists d :: d in decls && DeclDeclares(d, r.value)
    ensures r.None? <==> forall d, t :: d in decls && DeclDeclares(d, t) ==> t.name != name
    decreases |decls|
  {
    if decls == [] then None
    else
      var here := if decls[0].GenDecl? then SearchSpecs(decls[0].specs, name) else None;
      if here.Some? then
        assert decls[0] in decls && DeclDeclares(decls[0], here.value);
        here
      else
        assert forall d :: d in decls ==> d == decls[0] || d in decls[1..];
        SearchDecls(decls[1..], name)
  }

  function SearchFiles(files: seq<SourceFile>, name: string): (r: Option<TypeSpec>)
    ensures r.Some? ==> r.value.name == name && exists f :: f in files && FileDeclares(f, r.value)
    ensures r.None? <==> forall f, t :: f in files && FileDeclares(f, t) ==> t.name != name
    decreases |files|
  {
    if files == [] then None
    else
      var here := SearchDecls(files[0].decls, name);
      if here.Some? then
        assert files[0] in files && FileDeclares(files[0], here.value);
        here
      else
        assert forall f :: f in files ==> f == files[0] || f in files[1..];
        SearchFiles(files[1..], name)
  }

  /** searchSpec: None exactly when no type spec of the tree has the name;
      any result has the name and is declared in the tree. Which of several
      specs with the same name is found depends on Go's map order. */
  function SearchSpec(tree: PackageTree, name: string): (r: Option<TypeSpec>)
    ensures r.Some? ==> r.value.name == name && TreeDeclares(tree, r.value)
    ensures r.None? <==> forall t :: TreeDeclares(tree, t) ==> t.name != name
    decreases |tree|
  {
    if tree == [] then None
    else
      var here := SearchFiles(tree[0].files, name);
      if here.Some? then
        assert tree[0] in tree && PackageDeclares(tree[0], here.value);
        here
      else
        assert forall p :: p in tree ==> p == tree[0] || p in tree[1..];
        SearchSpec(tree[1..], name)
  }

  /** When a tree declares a name at most once (as the Go compiler demands of
      one package), the order of the visit does not matter: two trees that
      declare the same type specs give the same answer. */
  lemma SearchSpecOrderIndependent(t1: PackageTree, t2: PackageTree, name: string)
    requires forall t :: TreeDeclares(t1, t) <==> TreeDeclares(t2, t)
    requires forall a, b :: TreeDeclares(t1, a) && TreeDeclares(t1, b) && a.name == name && b.name == name ==> a == b
    ensures SearchSpec(t1, name) == SearchSpec(t2, name)
  {
  }
}
