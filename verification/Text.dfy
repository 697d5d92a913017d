// Python string primitives shared by the models: find, split, strip, slicing.

module Text {
  datatype Option<+T> = None | Some(value: T) {
    function UnwrapOr(default: T): T {
      if Some? then value else default
    }
  }

  /** The pattern stands at index `i` of the text. */
  predicate OccursAt(s: string, pat: string, i: int) {
    0 <= i && i + |pat| <= |s| && s[i..i + |pat|] == pat
  }

  /** `s.find(pat, from)`: the least occurrence at or after `from`, or -1. */
  function Find(s: string, pat: string, from: nat): (r: int)
    ensures r >= 0 ==> from <= r && OccursAt(s, pat, r) && forall j :: from <= j < r ==> !OccursAt(s, pat, j)
    ensures r < 0 ==> r == -1 && forall j :: from <= j ==> !OccursAt(s, pat, j)
    decreases |s| - from
  {
    if from + |pat| > |s| then -1
    else if OccursAt(s, pat, from) then from
    else Find(s, pat, from + 1)
  }

  lemma SliceInFront<T>(a: seq<T>, b: seq<T>, i: nat, j: nat)
    requires i <= j <= |a|
    ensures (a + b)[i..j] == a[i..j]
  {
  }

  lemma SliceBehind<T>(a: seq<T>, b: seq<T>, i: nat, j: nat)
    requires i <= j <= |b|
    ensures (a + b)[|a| + i..|a| + j] == b[i..j]
  {
  }

  lemma SliceOfSlice<T>(s: seq<T>, from: nat, to: nat, i: nat, j: nat)
    requires from <= to <= |s| && i <= j <= to - from
    ensures s[from..to][i..j] == s[from + i..from + j]
  {
    var inner := s[from..to];
    assert |inner[i..j]| == |s[from + i..from + j]|;
    forall k | 0 <= k < j - i ensures inner[i..j][k] == s[from + i..from + j][k] {
      assert inner[i + k] == s[from + i + k];
    }
  }

  lemma SliceMoved<T>(s: seq<T>, inner: seq<T>, from: nat, i: nat, j: nat, a: nat, b: nat)
    requires from + |inner| <= |s| && inner == s[from..from + |inner|] && i <= j <= |inner| && a == from + i && b == from + j
    ensures inner[i..j] == s[a..b]
  {
    SliceOfSlice(s, from, from + |inner|, i, j);
  }

  lemma SliceOfTail<T>(s: seq<T>, from: nat, i: nat, j: nat)
    requires from <= |s| && i <= j <= |s| - from
    ensures s[from..][i..j] == s[from + i..from + j]
  {
    SliceOfSlice(s, from, |s|, i, j);
    assert s[from..] == s[from..|s|];
  }

  /** An occurrence inside a text is an occurrence, at the same index, in every extension of it. */
  lemma OccursInExtension(s: string, t: string, pat: string, i: int)
    requires i + |pat| <= |s|
    ensures OccursAt(s + t, pat, i) <==> OccursAt(s, pat, i)
  {
    if 0 <= i {
      assert (s + t)[i..i + |pat|] == s[i..i + |pat|];
    }
  }

  /** Dropping a prefix shifts the occurrences behind it. */
  lemma OccursInSuffix(s: string, pat: string, k: nat, i: int)
    requires k <= |s| && 0 <= i
    ensures OccursAt(s[k..], pat, i) <==> OccursAt(s, pat, k + i)
  {
    if k + i + |pat| <= |s| {
      assert s[k..][i..i + |pat|] == s[k + i..k + i + |pat|];
    }
  }

  /** A found occurrence stays the found one when the text grows. */
  lemma FindInExtension(s: string, t: string, pat: string, from: nat)
    requires Find(s, pat, from) >= 0
    ensures Find(s + t, pat, from) == Find(s, pat, from)
  {
    var r := Find(s, pat, from);
    OccursInExtension(s, t, pat, r);
    forall j | from <= j < r ensures !OccursAt(s + t, pat, j) {
      OccursInExtension(s, t, pat, j);
    }
  }

  /** Searching behind a dropped prefix finds the same place. */
  lemma FindInSuffix(s: string, pat: string, k: nat, from: nat)
    requires k <= |s|
    ensures Find(s, pat, k + from) == (var r := Find(s[k..], pat, from); if r < 0 then -1 else k + r)
  {
    var r, q := Find(s[k..], pat, from), Find(s, pat, k + from);
    if r >= 0 { OccursInSuffix(s, pat, k, r); }
    if q >= 0 { OccursInSuffix(s, pat, k, q - k); }
    if r >= 0 && q >= 0 {
      OccursInSuffix(s, pat, k, r);
      OccursInSuffix(s, pat, k, q - k);
    }
  }

  /** `s[k:]`, clipped. */
  function Behind<T>(s: seq<T>, k: nat): seq<T> {
    if k <= |s| then s[k..] else []
  }

  function Concat(parts: seq<string>): string {
    if parts == [] then "" else Concat(parts[..|parts| - 1]) + parts[|parts| - 1]
  }

  /** `sep.join(parts)` for a one-character separator. */
  function Join(parts: seq<string>, sep: char): string {
    if parts == [] then "" else if |parts| == 1 then parts[0] else parts[0] + [sep] + Join(parts[1..], sep)
  }

  /** `s.split(sep)` for a one-character separator; never empty. */
  function Split(s: string, sep: char): (parts: seq<string>)
    ensures |parts| >= 1
    decreases |s|
  {
    var i := Find(s, [sep], 0);
    if i < 0 then [s] else [s[..i]] + Split(s[i + 1..], sep)
  }

  lemma CharOccurs(s: string, c: char, i: int)
    ensures OccursAt(s, [c], i) <==> 0 <= i < |s| && s[i] == c
  {
    if 0 <= i < |s| {
      assert s[i..i + 1] == [s[i]];
    }
  }

  /** What `find` says of a one-character pattern. */
  lemma FindIsFirst(s: string, c: char)
    ensures var i := Find(s, [c], 0); if i < 0 then c !in s else i < |s| && s[i] == c && c !in s[..i]
  {
    forall j ensures OccursAt(s, [c], j) <==> 0 <= j < |s| && s[j] == c {
      CharOccurs(s, c, j);
    }
  }

  lemma PairOccurs(s: string, a: char, b: char, i: int)
    ensures OccursAt(s, [a, b], i) <==> 0 <= i && i + 2 <= |s| && s[i] == a && s[i + 1] == b
  {
    if 0 <= i && i + 2 <= |s| {
      assert s[i..i + 2] == [s[i], s[i + 1]];
    }
  }

  lemma FindChar(s: string, t: string, sep: char)
    requires sep !in s
    ensures Find(s, [sep], 0) == -1
    ensures Find(s + [sep] + t, [sep], 0) == |s|
  {
    forall u: string, j ensures OccursAt(u, [sep], j) <==> 0 <= j < |u| && u[j] == sep {
      CharOccurs(u, sep, j);
    }
    assert OccursAt(s + [sep] + t, [sep], |s|);
  }

  /** Splitting undoes joining when no part holds the separator. */
  lemma {:induction false} SplitJoin(parts: seq<string>, sep: char)
    requires parts != [] && forall p :: p in parts ==> sep !in p
    ensures Split(Join(parts, sep), sep) == parts
  {
    if |parts| == 1 {
      FindChar(parts[0], "", sep);
    } else {
      var rest := Join(parts[1..], sep);
      FindChar(parts[0], rest, sep);
      var whole := parts[0] + [sep] + rest;
      assert whole[..|parts[0]|] == parts[0];
      assert whole[|parts[0]| + 1..] == rest;
      SplitJoin(parts[1..], sep);
    }
  }

  /** `dict.fromkeys(s)`: first occurrences in order. */
  function Dedup(s: seq<string>): (r: seq<string>)
    ensures forall x :: x in r <==> x in s
    ensures forall i, j :: 0 <= i < j < |r| ==> r[i] != r[j]
  {
    if s == [] then []
    else
      var n := |s| - 1;
      var r := Dedup(s[..n]);
      assert s == s[..n] + [s[n]];
      if s[n] in r then r else r + [s[n]]
  }

  /** `a` stands in the text before the first `b`. */
  ghost predicate ComesFirst(s: seq<string>, a: string, b: string) {
    exists k :: 0 <= k < |s| && s[k] == a && b !in s[..k]
  }

  /** What is kept stays in the order of first occurrences. */
  lemma {:induction false} DedupKeepsOrder(s: seq<string>, i: nat, j: nat)
    requires i < j < |Dedup(s)|
    ensures ComesFirst(s, Dedup(s)[i], Dedup(s)[j])
    decreases |s|
  {
    var n := |s| - 1;
    var r, a, b := Dedup(s[..n]), Dedup(s)[i], Dedup(s)[j];
    if j < |r| {
      DedupKeepsOrder(s[..n], i, j);
      var k :| 0 <= k < n && s[..n][k] == a && b !in s[..n][..k];
      assert s[..n][..k] == s[..k] && s[k] == a;
    } else {
      assert a in s[..n] && b !in s[..n];
      var k :| 0 <= k < n && s[..n][k] == a;
      assert s[k] == a && forall x :: x in s[..k] ==> x in s[..n];
    }
  }

  lemma {:induction false} DedupDistinct(s: seq<string>)
    requires forall i, j :: 0 <= i < j < |s| ==> s[i] != s[j]
    ensures Dedup(s) == s
    decreases |s|
  {
    if s != [] {
      var n := |s| - 1;
      DedupDistinct(s[..n]);
      assert s == s[..n] + [s[n]];
    }
  }
}
