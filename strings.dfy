/** The pieces of Go's strings package the generator relies on: Split and Join
    with a one-character separator, and Index / Contains for substrings. */
module Strings {

  /** strings.Split(s, string(c)): the pieces of s between occurrences of c.
      Split("", c) is [""], as in Go. */
  function Split(s: string, c: char): (r: seq<string>)
    ensures |r| >= 1
    ensures forall i :: 0 <= i < |r| ==> c !in r[i]
    ensures c !in s ==> r == [s]
    ensures c in s ==> |r| >= 2
    decreases |s|
  {
    if s == [] then [""]
    else
      var rest := Split(s[1..], c);
      if s[0] == c then [""] + rest
      else
        assert s == [s[0]] + s[1..];
        [[s[0]] + rest[0]] + rest[1..]
  }

  /** strings.Join(parts, string(c)). */
  function Join(parts: seq<string>, c: char): string
    decreases |parts|
  {
    if parts == [] then ""
    else if |parts| == 1 then parts[0]
    else parts[0] + [c] + Join(parts[1..], c)
  }

  /** Index of the first occurrence of c in s. */
  function FirstIndex(s: string, c: char): (i: nat)
    requires c in s
    ensures i < |s| && s[i] == c && c !in s[..i]
  {
    if s[0] == c then 0
    else
      assert c in s[1..] by { assert s == [s[0]] + s[1..]; }
      var j := FirstIndex(s[1..], c);
      assert s[..j + 1] == [s[0]] + s[1..][..j];
      j + 1
  }

  /** The text of s before its first c (all of s when c does not occur). */
  function Before(s: string, c: char): (r: string)
    ensures c !in r
    ensures c in s ==> |r| < |s| && s[..|r|] == r && s[|r|] == c
    ensures c !in s ==> r == s
  {
    if c in s then s[..FirstIndex(s, c)] else s
  }

  /** The text of s after its first c. */
  function After(s: string, c: char): string
    requires c in s
  {
    s[FirstIndex(s, c) + 1..]
  }

  /** Splitting undoes joining: Join(Split(s, c), c) == s. */
  lemma {:induction false} JoinSplit(s: string, c: char)
    ensures Join(Split(s, c), c) == s
    decreases |s|
  {
    if s != [] {
      var rest := Split(s[1..], c);
      JoinSplit(s[1..], c);
      assert s == [s[0]] + s[1..];
      if s[0] == c {
        assert Split(s, c) == [""] + rest;
        JoinCons("", rest, c);
      } else {
        assert Split(s, c) == [[s[0]] + rest[0]] + rest[1..];
        JoinExtendFirst(s[0], rest, c);
      }
    }
  }

  /** Join of a piece in front of at least one other. */
  lemma JoinCons(p: string, rest: seq<string>, c: char)
    requires |rest| >= 1
    ensures Join([p] + rest, c) == p + [c] + Join(rest, c)
  {
    assert ([p] + rest)[1..] == rest;
  }

  /** Putting a character in front of the first piece puts it in front of
      the join. */
  lemma JoinExtendFirst(x: char, parts: seq<string>, c: char)
    requires |parts| >= 1
    ensures Join([[x] + parts[0]] + parts[1..], c) == [x] + Join(parts, c)
  {
    var ext := [[x] + parts[0]] + parts[1..];
    assert ext[1..] == parts[1..];
    if |parts| > 1 {
      assert Join(parts, c) == parts[0] + [c] + Join(parts[1..], c);
    }
  }

  /** Splitting a text that has a separator in the middle splits both sides:
      Split(a + [c] + b, c) == Split(a, c) + Split(b, c). */
  lemma {:induction false} SplitConcat(a: string, b: string, c: char)
    ensures Split(a + [c] + b, c) == Split(a, c) + Split(b, c)
    decreases |a|
  {
    var s := a + [c] + b;
    if a == [] {
      assert s[0] == c && s[1..] == b;
    } else {
      assert s[0] == a[0] && s[1..] == a[1..] + [c] + b;
      SplitConcat(a[1..], b, c);
    }
  }

  /** A text with one separator splits into the two sides. */
  lemma SplitTwo(a: string, b: string, c: char)
    requires c !in a && c !in b
    ensures Split(a + [c] + b, c) == [a, b]
  {
    SplitConcat(a, b, c);
  }

  /** Joining pieces that do not contain the separator is undone by Split. */
  lemma {:induction false} SplitJoin(parts: seq<string>, c: char)
    requires |parts| >= 1
    requires forall i :: 0 <= i < |parts| ==> c !in parts[i]
    ensures Split(Join(parts, c), c) == parts
    decreases |parts|
  {
    if |parts| > 1 {
      assert forall i :: 0 <= i < |parts[1..]| ==> parts[1..][i] == parts[i + 1];
      SplitJoin(parts[1..], c);
      assert Join(parts, c) == parts[0] + [c] + Join(parts[1..], c);
      SplitConcat(parts[0], Join(parts[1..], c), c);
      assert Split(parts[0], c) == [parts[0]];
      assert parts == [parts[0]] + parts[1..];
    } else {
      assert Join(parts, c) == parts[0];
      assert Split(parts[0], c) == [parts[0]];
    }
  }

  /** The first piece of a split is the text before the first separator, and
      the remaining pieces, joined again, are the text after it. */
  lemma SplitAtFirst(s: string, c: char)
    ensures Split(s, c)[0] == Before(s, c)
    ensures c in s ==> Join(Split(s, c)[1..], c) == After(s, c)
  {
    if c in s {
      var i := FirstIndex(s, c);
      SplitAtIndex(s, c, i);
      SplitAfterFirst(s, c, i);
    }
  }

  /** Cutting at the first separator: the piece before it, then the
      pieces of the rest. */
  lemma SplitAtIndex(s: string, c: char, i: nat)
    requires i < |s| && s[i] == c && c !in s[..i]
    ensures Split(s, c) == [s[..i]] + Split(s[i + 1..], c)
  {
    assert s == s[..i] + [c] + s[i + 1..];
    SplitConcat(s[..i], s[i + 1..], c);
    assert Split(s[..i], c) == [s[..i]];
  }

  /** The pieces after the first, joined again, are the text after the
      first separator. */
  lemma SplitAfterFirst(s: string, c: char, i: nat)
    requires i < |s| && s[i] == c && c !in s[..i]
    ensures Join(Split(s, c)[1..], c) == s[i + 1..]
  {
    SplitAtIndex(s, c, i);
    var rest := Split(s[i + 1..], c);
    assert Split(s, c)[1..] == rest;
    JoinSplit(s[i + 1..], c);
  }

  /** The last piece of a split is the text after the last separator: a suffix
      of s free of c, preceded in s by c when c occurs at all. */
  lemma {:induction false} SplitLast(s: string, c: char)
    ensures var parts := Split(s, c);
            var last := parts[|parts| - 1];
            && |last| <= |s| && s[|s| - |last|..] == last
            && (c in s ==> |last| < |s| && s[|s| - |last| - 1] == c)
    decreases |s|
  {
    if s != [] {
      SplitLast(s[1..], c);
      var rest := Split(s[1..], c);
      if s[0] == c {
        assert Split(s, c)[|Split(s, c)| - 1] == rest[|rest| - 1];
      } else if |rest| > 1 {
        assert Split(s, c)[|Split(s, c)| - 1] == rest[|rest| - 1];
        assert c in s[1..];
      } else {
        assert rest == [s[1..]];
        assert Split(s, c) == [s];
      }
    }
  }

  /** Joining pieces after appending x to the last one appends x to the join. */
  lemma {:induction false} JoinExtendLast(parts: seq<string>, x: string, c: char)
    requires |parts| >= 1
    ensures Join(parts[..|parts| - 1] + [parts[|parts| - 1] + x], c) == Join(parts, c) + x
    decreases |parts|
  {
    if |parts| > 1 {
      var ps := parts[1..];
      JoinExtendLast(ps, x, c);
      var ext := parts[..|parts| - 1] + [parts[|parts| - 1] + x];
      assert ext[0] == parts[0];
      assert ext[1..] == ps[..|ps| - 1] + [ps[|ps| - 1] + x];
    }
  }

  /** sub occurs in s starting at position j. */
  predicate OccursAt(s: string, sub: string, j: int)
  {
    0 <= j && j + |sub| <= |s| && s[j..j + |sub|] == sub
  }

  lemma OccursShift(s: string, sub: string, j: nat)
    requires s != []
    ensures OccursAt(s, sub, j + 1) <==> OccursAt(s[1..], sub, j)
  {
    if j + 1 + |sub| <= |s| {
      assert s[j + 1..j + 1 + |sub|] == s[1..][j..j + |sub|];
    }
  }

  /** strings.Index(s, sub): the position of the first occurrence of sub in s,
      or -1 when there is none; 0 for an empty sub. */
  function Index(s: string, sub: string): (r: int)
    ensures r == -1 || OccursAt(s, sub, r)
    ensures forall j :: 0 <= j < r ==> !OccursAt(s, sub, j)
    ensures r == -1 ==> forall j :: !OccursAt(s, sub, j)
    decreases |s|
  {
    if |sub| > |s| then -1
    else if s[..|sub|] == sub then 0
    else
      var k := Index(s[1..], sub);
      assert forall j :: 0 <= j ==> (OccursAt(s, sub, j + 1) <==> OccursAt(s[1..], sub, j)) by {
        forall j | 0 <= j
          ensures OccursAt(s, sub, j + 1) <==> OccursAt(s[1..], sub, j)
        {
          OccursShift(s, sub, j);
        }
      }
      if k == -1 then
        assert forall j :: !OccursAt(s, sub, j) by {
          forall j ensures !OccursAt(s, sub, j) {
            if j > 0 { assert !OccursAt(s[1..], sub, j - 1); }
          }
        }
        -1
      else
        assert forall j :: 0 <= j < k + 1 ==> !OccursAt(s, sub, j) by {
          forall j | 0 <= j < k + 1 ensures !OccursAt(s, sub, j) {
            if j > 0 { assert !OccursAt(s[1..], sub, j - 1); }
          }
        }
        k + 1
  }

  /** The marker test of the generator: sub occurs somewhere in s. */
  predicate Contains(s: string, sub: string)
  {
    exists j | 0 <= j <= |s| :: OccursAt(s, sub, j)
  }
}
