/** The two struct-tag keys the generator reads (generator.go:265-285 and
    313-328): `json` gives the field's external name or skips it, `es` is a
    comma-separated list of key:value attributes. */
module Tags {
  import opened Wrappers
  import opened Strings
  import opened Ast

  const EsTagError := "es tag parse failed"

  /** The attributes of the comma segments `segs`, laid over `acc` in order:
      each segment is split on ':', the first part is the key and the other
      parts, joined again with ':', are the value; a segment with no ':' is
      fatal. */
  function EsPairs(segs: seq<string>, acc: Properties): Outcome<Properties>
    decreases |segs|
  {
    if segs == [] then Ok(acc)
    else
      var attrs := Split(segs[0], ':');
      if |attrs| < 2 then Fatal(EsTagError)
      else EsPairs(segs[1..], acc[attrs[0] := Str(Join(attrs[1..], ':'))])
  }

  /** The attribute map of an `es` tag value; an empty value gives no
      attributes. */
  function EsAttributes(es: string): Outcome<Properties>
  {
    if es == "" then Ok(map[]) else EsPairs(Split(es, ','), map[])
  }

  /** parseEsTag, with its loop over the comma segments. */
  method ParseEsTag(tag: Tag) returns (r: Outcome<Properties>)
    ensures r == EsAttributes(GetOr(tag.es))
  {
    var attributes: Properties := map[];
    var esTag := GetOr(tag.es);
    if esTag != "" {
      var attrStrList := Split(esTag, ',');
      for i := 0 to |attrStrList|
        invariant EsPairs(attrStrList, map[]) == EsPairs(attrStrList[i..], attributes)
      {
        var attrs := Split(attrStrList[i], ':');
        if |attrs| < 2 {
          return Fatal(EsTagError);
        }
        attributes := attributes[attrs[0] := Str(Join(attrs[1..], ':'))];
      }
    }
    return Ok(attributes);
  }

  /** The key and the value a segment contributes. */
  function KeyOf(seg: string): string
  {
    Before(seg, ':')
  }

  function ValueOf(seg: string): string
    requires ':' in seg
  {
    After(seg, ':')
  }

  /** Segment j is the last one with its key. */
  ghost predicate LastWithKey(segs: seq<string>, j: int)
    requires 0 <= j < |segs|
  {
    forall l :: j < l < |segs| ==> KeyOf(segs[l]) != KeyOf(segs[j])
  }

  /** One segment with a ':' lays its key and value over `acc`. */
  lemma EsPairsStep(segs: seq<string>, acc: Properties)
    requires segs != [] && ':' in segs[0]
    ensures EsPairs(segs, acc) == EsPairs(segs[1..], acc[KeyOf(segs[0]) := Str(ValueOf(segs[0]))])
  {
    SplitAtFirst(segs[0], ':');
  }

  /** Laying segments over `acc` is fatal exactly when some segment has no
      ':', and never anything but Ok or Fatal. */
  lemma {:induction false} EsPairsFatal(segs: seq<string>, acc: Properties)
    ensures EsPairs(segs, acc).Fatal? <==> exists i :: 0 <= i < |segs| && ':' !in segs[i]
    ensures !EsPairs(segs, acc).OutOfFuel?
    decreases |segs|
  {
    if segs != [] {
      if ':' in segs[0] {
        EsPairsStep(segs, acc);
        EsPairsFatal(segs[1..], acc[KeyOf(segs[0]) := Str(ValueOf(segs[0]))]);
        assert forall i :: 1 <= i < |segs| ==> segs[i] == segs[1..][i - 1];
      }
    }
  }

  /** When every segment has a ':', the keys of the result are acc's and the
      segments' keys, and a key of acc that no segment names keeps its value. */
  lemma {:induction false} EsPairsKeys(segs: seq<string>, acc: Properties)
    requires forall i :: 0 <= i < |segs| ==> ':' in segs[i]
    ensures EsPairs(segs, acc).Ok?
    ensures forall k :: k in EsPairs(segs, acc).value <==>
      k in acc || exists i :: 0 <= i < |segs| && KeyOf(segs[i]) == k
    ensures forall k :: k in acc && (forall i :: 0 <= i < |segs| ==> KeyOf(segs[i]) != k) ==>
      EsPairs(segs, acc).value[k] == acc[k]
    decreases |segs|
  {
    if segs != [] {
      var acc' := acc[KeyOf(segs[0]) := Str(ValueOf(segs[0]))];
      EsPairsStep(segs, acc);
      EsPairsKeys(segs[1..], acc');
      assert forall i :: 1 <= i < |segs| ==> segs[i] == segs[1..][i - 1];
      assert forall i :: 0 <= i < |segs[1..]| ==> segs[1..][i] == segs[i + 1];
    }
  }

  /** When every segment has a ':', the last segment with a key gives that
      key its value. */
  lemma {:induction false} EsPairsLastWins(segs: seq<string>, acc: Properties, j: int)
    requires forall i :: 0 <= i < |segs| ==> ':' in segs[i]
    requires 0 <= j < |segs| && LastWithKey(segs, j)
    ensures EsPairs(segs, acc).Ok? && KeyOf(segs[j]) in EsPairs(segs, acc).value
    ensures EsPairs(segs, acc).value[KeyOf(segs[j])] == Str(ValueOf(segs[j]))
    decreases |segs|
  {
    EsPairsKeys(segs, acc);
    var acc' := acc[KeyOf(segs[0]) := Str(ValueOf(segs[0]))];
    EsPairsStep(segs, acc);
    EsPairsKeys(segs[1..], acc');
    assert forall i :: 0 <= i < |segs[1..]| ==> segs[1..][i] == segs[i + 1];
    if j > 0 {
      assert LastWithKey(segs[1..], j - 1);
      EsPairsLastWins(segs[1..], acc', j - 1);
    }
  }

  /** parseEsTag's promise: an empty or missing `es` tag gives no attributes;
      otherwise the run is fatal exactly when some comma segment has no ':',
      every key is the text of some segment before its first ':', and it maps
      to the text after that ':' in the last segment with that key (so
      `a:b:c` gives `a` the value `b:c`). */
  lemma EsAttributesSpec(es: string)
    ensures es == "" ==> EsAttributes(es) == Ok(map[])
    ensures !EsAttributes(es).OutOfFuel?
    ensures es != "" ==>
      (EsAttributes(es).Fatal? <==> exists i :: 0 <= i < |Split(es, ',')| && ':' !in Split(es, ',')[i])
    ensures es != "" && EsAttributes(es).Ok? ==>
      var segs := Split(es, ',');
      var m := EsAttributes(es).value;
      && (forall k :: k in m <==> exists i :: 0 <= i < |segs| && KeyOf(segs[i]) == k)
      && (forall j :: 0 <= j < |segs| && LastWithKey(segs, j) ==> m[KeyOf(segs[j])] == Str(ValueOf(segs[j])))
  {
    var segs := Split(es, ',');
    EsPairsFatal(segs, map[]);
    if es != "" {
      assert EsAttributes(es) == EsPairs(segs, map[]);
    }
    if es != "" && EsAttributes(es).Ok? {
      EsPairsKeys(segs, map[]);
      forall j | 0 <= j < |segs| && LastWithKey(segs, j)
        ensures EsAttributes(es).value[KeyOf(segs[j])] == Str(ValueOf(segs[j]))
      {
        EsPairsLastWins(segs, map[], j);
      }
    }
  }

  /** How a field is named: skipped, or under a name ("" for a field treated
      as embedded). */
  datatype FieldName = Skipped | Named(name: string)

  /** The field's first declared name, or "" for an embedded field. */
  function DeclaredName(f: Field): string
  {
    if |f.names| > 0 then f.names[0] else ""
  }

  /** The naming rule: without a tag the declared name is kept verbatim; a
      `json` tag that is exactly "-" skips the field; otherwise the tag's
      first comma token is the name, which is "" when the tag has no json
      key. */
  function NameOf(f: Field): (r: FieldName)
    ensures r.Skipped? <==> f.tag.Some? && f.tag.value.json == Some("-")
    ensures f.tag.None? ==> r == Named(DeclaredName(f))
    ensures f.tag.Some? && f.tag.value.json.None? ==> r == Named("")
    ensures r.Named? && f.tag.Some? ==>
      var json := GetOr(f.tag.value.json);
      && ',' !in r.name
      && |r.name| <= |json| && json[..|r.name|] == r.name
      && (|r.name| < |json| ==> json[|r.name|] == ',')
  {
    match f.tag
    case None => Named(DeclaredName(f))
    case Some(tag) =>
      var jsonTag := GetOr(tag.json);
      if jsonTag == "-" then Skipped
      else
        SplitAtFirst(jsonTag, ',');
        Named(Split(jsonTag, ',')[0])
  }

  /** The `es` attributes of a field: none without a tag. */
  function TagAttributes(f: Field): Outcome<Properties>
  {
    match f.tag
    case None => Ok(map[])
    case Some(tag) => EsAttributes(GetOr(tag.es))
  }
}
