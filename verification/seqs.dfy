/** Sequence and string helpers shared by the components: joining, splitting,
    filtering (Array.prototype.filter), taking a prefix (slice(0, n)) and
    flattening. */
module Seqs {

  /** `parts.join(sep)` for a list of strings. */
  function Join(parts: seq<string>, sep: string): string
  {
    if |parts| == 0 then ""
    else if |parts| == 1 then parts[0]
    else parts[0] + sep + Join(parts[1..], sep)
  }

  /** Appending one part to a join adds a separator and the part, or is
      just the part when there was nothing before it. */
  lemma {:induction false} JoinSnoc(parts: seq<string>, x: string, sep: string)
    ensures Join(parts + [x], sep) == if |parts| == 0 then x else Join(parts, sep) + sep + x
  {
    if |parts| == 0 {
      assert parts + [x] == [x];
    } else {
      JoinAppend(parts, [x], sep);
    }
  }

  /** Joining two non-empty lists puts exactly one separator between them. */
  lemma {:induction false} JoinAppend(a: seq<string>, b: seq<string>, sep: string)
    requires |a| > 0 && |b| > 0
    ensures Join(a + b, sep) == Join(a, sep) + sep + Join(b, sep)
    decreases |a|
  {
    if |a| == 1 {
      assert (a + b)[1..] == b;
    } else {
      assert (a + b)[1..] == a[1..] + b;
      JoinAppend(a[1..], b, sep);
    }
  }

  /** With a non-empty separator, a join is empty exactly when there is
      nothing to join or the only part is itself empty. */
  lemma {:induction false} JoinEmptyIff(parts: seq<string>, sep: string)
    requires |sep| > 0
    ensures Join(parts, sep) == "" <==> |parts| == 0 || (|parts| == 1 && parts[0] == "")
  {
    if |parts| >= 2 {
      assert |Join(parts, sep)| >= |sep|;
    }
  }

  /** Index of the first occurrence of `c` in `s`. */
  function IndexOf(s: string, c: char): (r: nat)
    requires c in s
    ensures r < |s| && s[r] == c
    ensures c !in s[..r]
  {
    if s[0] == c then 0 else 1 + IndexOf(s[1..], c)
  }

  lemma {:induction false} IndexOfUnique(s: string, c: char, k: nat)
    requires k < |s| && s[k] == c && c !in s[..k]
    ensures IndexOf(s, c) == k
  {
  }

  /** `s.split(c)` for a one-character separator. */
  function Split(s: string, c: char): (r: seq<string>)
    ensures |r| > 0
    decreases |s|
  {
    if c !in s then [s]
    else
      var i := IndexOf(s, c);
      [s[..i]] + Split(s[i + 1..], c)
  }

  /** Splitting undoes joining when no part contains the separator: every
      part comes back, in order. */
  lemma {:induction false} SplitJoin(parts: seq<string>, c: char)
    requires |parts| > 0
    requires forall i :: 0 <= i < |parts| ==> c !in parts[i]
    ensures Split(Join(parts, [c]), c) == parts
    decreases |parts|
  {
    if |parts| == 1 {
    } else {
      var p := parts[0];
      var rest := Join(parts[1..], [c]);
      var s := Join(parts, [c]);
      assert s == p + [c] + rest;
      assert s[|p|] == c;
      assert s[..|p|] == p;
      IndexOfUnique(s, c, |p|);
      assert s[|p| + 1..] == rest;
      SplitJoin(parts[1..], c);
    }
  }

  /** `s.filter(p)`: the elements satisfying `p`, in their original order. */
  function Keep<T>(s: seq<T>, p: T -> bool): (r: seq<T>)
    ensures |r| == CountWhere(s, p)
    ensures forall i :: 0 <= i < |r| ==> p(r[i])
    ensures forall i :: 0 <= i < |s| && p(s[i]) ==> s[i] in r
    ensures forall i :: 0 <= i < |r| ==> r[i] in s
  {
    if |s| == 0 then []
    else
      var rest := Keep(s[1..], p);
      assert s == [s[0]] + s[1..];
      if p(s[0]) then [s[0]] + rest else rest
  }

  lemma KeepCons<T>(x: T, s: seq<T>, p: T -> bool)
    ensures Keep([x] + s, p) == (if p(x) then [x] else []) + Keep(s, p)
  {
    assert ([x] + s)[1..] == s;
  }

  /** Number of positions of `s` whose element satisfies `p`. */
  function CountWhere<T>(s: seq<T>, p: T -> bool): nat
  {
    if |s| == 0 then 0
    else (if p(s[0]) then 1 else 0) + CountWhere(s[1..], p)
  }

  /** `a` can be obtained from `b` by deleting elements. */
  predicate SubseqOf<T(==)>(a: seq<T>, b: seq<T>)
    decreases |b|
  {
    if |a| == 0 then true
    else if |b| == 0 then false
    else (a[0] == b[0] && SubseqOf(a[1..], b[1..])) || SubseqOf(a, b[1..])
  }

  lemma {:induction false} KeepIsSubseq<T>(s: seq<T>, p: T -> bool)
    ensures SubseqOf(Keep(s, p), s)
    decreases |s|
  {
    if |s| > 0 {
      KeepIsSubseq(s[1..], p);
      var rest := Keep(s[1..], p);
      if p(s[0]) {
        assert Keep(s, p) == [s[0]] + rest;
        assert ([s[0]] + rest)[1..] == rest;
      } else {
        assert Keep(s, p) == rest;
        SubseqOfDropHead(rest, s);
      }
    }
  }

  lemma SubseqOfDropHead<T>(a: seq<T>, b: seq<T>)
    requires |b| > 0 && SubseqOf(a, b[1..])
    ensures SubseqOf(a, b)
  {
  }

  /** A subsequence made only of `p`-elements has at most as many elements
      as `s` has `p`-positions. */
  lemma {:induction false} SubseqCountBound<T>(r: seq<T>, s: seq<T>, p: T -> bool)
    requires SubseqOf(r, s)
    requires forall i :: 0 <= i < |r| ==> p(r[i])
    ensures |r| <= CountWhere(s, p)
    decreases |s|
  {
    if |r| > 0 {
      if r[0] == s[0] && SubseqOf(r[1..], s[1..]) {
        SubseqCountBound(r[1..], s[1..], p);
      } else {
        SubseqCountBound(r, s[1..], p);
      }
    }
  }

  /** `Keep` is the only subsequence that consists of `p`-elements and
      has one element per `p`-position: the filter keeps exactly those. */
  lemma {:induction false} KeepUnique<T>(r: seq<T>, s: seq<T>, p: T -> bool)
    requires SubseqOf(r, s)
    requires forall i :: 0 <= i < |r| ==> p(r[i])
    requires |r| == CountWhere(s, p)
    ensures r == Keep(s, p)
    decreases |s|
  {
    if |s| == 0 {
    } else if |r| == 0 {
      assert |Keep(s, p)| == 0;
    } else if r[0] == s[0] && SubseqOf(r[1..], s[1..]) {
      assert p(s[0]);
      KeepUnique(r[1..], s[1..], p);
      assert r == [r[0]] + r[1..];
    } else {
      assert SubseqOf(r, s[1..]);
      SubseqCountBound(r, s[1..], p);
      assert !p(s[0]);
      KeepUnique(r, s[1..], p);
    }
  }

  /** `s.slice(0, n)`: the first min(n, |s|) elements. */
  function Take<T>(s: seq<T>, n: nat): (r: seq<T>)
    ensures |r| == if |s| < n then |s| else n
    ensures r <= s
  {
    if |s| < n then s else s[..n]
  }

  /** Concatenation of a list of lists. */
  function Flatten<T>(ws: seq<seq<T>>): seq<T>
  {
    if |ws| == 0 then [] else ws[0] + Flatten(ws[1..])
  }

  lemma {:induction false} FlattenSnoc<T>(ws: seq<seq<T>>, w: seq<T>)
    ensures Flatten(ws + [w]) == Flatten(ws) + w
    decreases |ws|
  {
    if |ws| == 0 {
      assert ws + [w] == [w];
    } else {
      assert (ws + [w])[1..] == ws[1..] + [w];
      FlattenSnoc(ws[1..], w);
    }
  }
}
