/** Properties.Merge (generator.go:139-146): copy every entry of `other` into
    the receiver, overwriting entries with the same key. */
module Props {
  import opened Ast

  /** The receiver's map after Merge. Go mutates the receiver in place; the
      model returns the updated map (no other alias of it is ever observed). */
  method Merge(p: Properties, other: Properties) returns (r: Properties)
    ensures r.Keys == p.Keys + other.Keys
    ensures forall k :: k in other ==> r[k] == other[k]
    ensures forall k :: k in p && k !in other ==> r[k] == p[k]
    ensures r == p + other
  {
    r := p;
    var todo := other.Keys;
    while todo != {}
      invariant todo <= other.Keys
      invariant r.Keys == p.Keys + (other.Keys - todo)
      invariant forall k :: k in other.Keys - todo ==> r[k] == other[k]
      invariant forall k :: k in p && k !in other.Keys - todo ==> r[k] == p[k]
      decreases todo
    {
      var k :| k in todo;
      r := r[k := other[k]];
      todo := todo - {k};
    }
  }
}
