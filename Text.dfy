/** String and sequence helpers used throughout the model: Python's ASCII
    case folding, its substring test `w in s`, its slices `s[:n]` and
    `s[-n:]`, `str.join`, and the decimal rendering behind `str(int)`. */
module Text {

  /** Python's `str.lower` on one character, restricted to the ASCII letters. */
  function LowerChar(c: char): char {
    if 'A' <= c <= 'Z' then (c as int + 32) as char else c
  }

  function Lower(s: string): (r: string)
    ensures |r| == |s|
    ensures forall i :: 0 <= i < |s| ==> r[i] == LowerChar(s[i])
  {
    seq(|s|, i requires 0 <= i < |s| => LowerChar(s[i]))
  }

  lemma LowerAppend(a: string, b: string)
    ensures Lower(a + b) == Lower(a) + Lower(b)
  {
    assert Lower(a + b) == Lower(a) + Lower(b);
  }

  lemma LowerIdempotent(s: string)
    ensures Lower(Lower(s)) == Lower(s)
  {
    assert Lower(Lower(s)) == Lower(s);
  }

  predicate StartsWith(s: string, p: string) {
    |p| <= |s| && s[..|p|] == p
  }

  /** Python's substring test `w in s`: `w` occurs at some position of `s`. */
  predicate Contains(s: string, w: string) {
    exists i :: 0 <= i <= |s| && StartsWith(s[i..], w)
  }

  /** Python's `any(w in s for w in ws)`. */
  predicate ContainsAny(s: string, ws: seq<string>) {
    exists j :: 0 <= j < |ws| && Contains(s, ws[j])
  }

  lemma ContainsPrefix(s: string, t: string)
    ensures Contains(s + t, s)
  {
    assert StartsWith((s + t)[0..], s);
  }

  /** An occurrence survives text being added on either side. */
  lemma ContainsWithin(a: string, s: string, b: string, w: string)
    requires Contains(s, w)
    ensures Contains(a + s + b, w)
  {
    var i :| 0 <= i <= |s| && StartsWith(s[i..], w);
    var t := a + s + b;
    assert t[|a| + i..][..|w|] == s[i..][..|w|];
    assert StartsWith(t[|a| + i..], w);
  }

  lemma ContainsSelf(a: string, w: string, b: string)
    ensures Contains(a + w + b, w)
  {
    var t := a + w + b;
    assert t[|a|..][..|w|] == w;
    assert StartsWith(t[|a|..], w);
  }

  lemma ContainsRefl(w: string)
    ensures Contains(w, w)
  {
    assert StartsWith(w[0..], w);
  }

  /** An occurrence survives text being added in front. */
  lemma ContainsTail(a: string, s: string, w: string)
    requires Contains(s, w)
    ensures Contains(a + s, w)
  {
    var i :| 0 <= i <= |s| && StartsWith(s[i..], w);
    assert (a + s)[|a| + i..] == s[i..];
  }

  lemma ContainsAnyWithin(a: string, s: string, b: string, ws: seq<string>)
    requires ContainsAny(s, ws)
    ensures ContainsAny(a + s + b, ws)
  {
    var j :| 0 <= j < |ws| && Contains(s, ws[j]);
    ContainsWithin(a, s, b, ws[j]);
  }

  /** A sequence that agrees with `s` and then holds `x` is `s + [x]`. */
  lemma SnocEquals<T>(l: seq<T>, s: seq<T>, x: T)
    requires |l| == |s| + 1 && l[|s|] == x
    requires forall j :: 0 <= j < |s| ==> l[j] == s[j]
    ensures l == s + [x]
  {
  }

  /** A sequence is what comes before position `k`, the item there, and the rest. */
  lemma SplitAt<T>(s: seq<T>, k: nat)
    requires k < |s|
    ensures s == s[..k] + ([s[k]] + s[k + 1..])
  {
  }

  lemma ConsPair<T>(a: T, b: T, rest: seq<T>)
    ensures [a, b] + rest == [a] + ([b] + rest)
  {
  }

  /** Python's `s[:n]` for a non-negative `n`. */
  function Take<T>(s: seq<T>, n: nat): (r: seq<T>)
    ensures |r| == if n < |s| then n else |s|
    ensures r == s[..|r|]
  {
    if n < |s| then s[..n] else s
  }

  /** Python's `s[:k]` for any integer `k`: a negative `k` drops `-k` items from the end. */
  function SlicePrefix<T>(s: seq<T>, k: int): (r: seq<T>)
    ensures 0 <= k ==> r == Take(s, k)
    ensures k < 0 ==> |r| == if |s| + k < 0 then 0 else |s| + k
    ensures r == s[..|r|]
  {
    if 0 <= k then Take(s, k) else if |s| + k < 0 then [] else s[..|s| + k]
  }

  /** Python's `s[-n:]` for a positive `n`: the last `min(n, |s|)` items. */
  function Last<T>(s: seq<T>, n: nat): (r: seq<T>)
    requires 0 < n
    ensures |r| == if n < |s| then n else |s|
    ensures r == s[|s| - |r|..]
  {
    if n < |s| then s[|s| - n..] else s
  }

  /** Python's `sep.join(parts)`. */
  function Join(parts: seq<string>, sep: string): string
    decreases |parts|
  {
    if |parts| == 0 then ""
    else if |parts| == 1 then parts[0]
    else parts[0] + sep + Join(parts[1..], sep)
  }

  /** Every part of a joined string occurs in it. */
  lemma {:induction false} JoinContainsPart(parts: seq<string>, sep: string, i: nat)
    requires i < |parts|
    ensures Contains(Join(parts, sep), parts[i])
    decreases |parts|
  {
    if |parts| == 1 {
      ContainsRefl(parts[0]);
    } else if i == 0 {
      ContainsPrefix(parts[0], sep + Join(parts[1..], sep));
      assert parts[0] + (sep + Join(parts[1..], sep)) == parts[0] + sep + Join(parts[1..], sep);
    } else {
      JoinContainsPart(parts[1..], sep, i - 1);
      ContainsTail(parts[0] + sep, Join(parts[1..], sep), parts[i]);
    }
  }

  /** A join of at least one part starts with the first part. */
  lemma JoinStartsWithFirst(parts: seq<string>, sep: string)
    requires 0 < |parts|
    ensures StartsWith(Join(parts, sep), parts[0])
  {
    if |parts| > 1 {
      assert (parts[0] + sep + Join(parts[1..], sep))[..|parts[0]|] == parts[0];
    }
  }

  /** Strings whose first characters differ are different. */
  lemma FirstCharDiffers(s: string, p: string, t: string)
    requires StartsWith(s, p) && 0 < |p| && 0 < |t| && p[0] != t[0]
    ensures s != t
  {
    assert s[0] == s[..|p|][0] == p[0];
  }

  /** Python's `"".join(parts)`, i.e. repeated `+=`. */
  function Concat(parts: seq<string>): string
    decreases |parts|
  {
    if |parts| == 0 then "" else parts[0] + Concat(parts[1..])
  }

  lemma {:induction false} ConcatSnoc(parts: seq<string>, x: string)
    ensures Concat(parts + [x]) == Concat(parts) + x
    decreases |parts|
  {
    if |parts| == 0 {
      assert parts + [x] == [x];
    } else {
      assert (parts + [x])[1..] == parts[1..] + [x];
      ConcatSnoc(parts[1..], x);
    }
  }

  /** Every part of a concatenation occurs in it. */
  lemma {:induction false} ConcatContainsPart(parts: seq<string>, i: nat)
    requires i < |parts|
    ensures Contains(Concat(parts), parts[i])
    decreases |parts|
  {
    if i == 0 {
      ContainsPrefix(parts[0], Concat(parts[1..]));
    } else {
      ConcatContainsPart(parts[1..], i - 1);
      ContainsTail(parts[0], Concat(parts[1..]), parts[i]);
    }
  }

  predicate IsDigit(c: char) {
    '0' <= c <= '9'
  }

  function DigitChar(d: nat): (c: char)
    requires d < 10
    ensures IsDigit(c)
  {
    ('0' as int + d) as char
  }

  /** Python's `str(n)` for a natural number: its decimal digits, most significant first. */
  function NatToString(n: nat): (r: string)
    ensures 0 < |r|
    ensures forall i :: 0 <= i < |r| ==> IsDigit(r[i])
    decreases n
  {
    if n < 10 then [DigitChar(n)] else NatToString(n / 10) + [DigitChar(n % 10)]
  }

  /** Python's `str(i)` for an integer of either sign. */
  function IntToString(i: int): string {
    if i < 0 then "-" + NatToString(-i) else NatToString(i)
  }

  /** `a` can be obtained from `b` by deleting items, keeping the order of the rest. */
  predicate IsSubseq<T(==)>(a: seq<T>, b: seq<T>)
    decreases |b|
  {
    if a == [] then true
    else if b == [] then false
    else (a[0] == b[0] && IsSubseq(a[1..], b[1..])) || IsSubseq(a, b[1..])
  }

  lemma SubseqSkip<T>(x: T, a: seq<T>, b: seq<T>)
    requires IsSubseq(a, b)
    ensures IsSubseq(a, [x] + b)
  {
    assert ([x] + b)[1..] == b;
  }

  lemma SubseqKeep<T>(x: T, a: seq<T>, b: seq<T>)
    requires IsSubseq(a, b)
    ensures IsSubseq([x] + a, [x] + b)
  {
    assert ([x] + a)[1..] == a;
    assert ([x] + b)[1..] == b;
  }

  lemma {:induction false} SubseqPrefix<T>(a: seq<T>, b: seq<T>, n: nat)
    requires IsSubseq(a, b)
    requires n <= |a|
    ensures IsSubseq(a[..n], b)
    decreases |b|
  {
    if n == 0 || a == [] {
      assert a[..n] == [];
    } else if a[0] == b[0] && IsSubseq(a[1..], b[1..]) {
      SubseqPrefix(a[1..], b[1..], n - 1);
      assert a[..n][1..] == a[1..][..n - 1];
    } else {
      SubseqPrefix(a, b[1..], n);
    }
  }

  /** Every item of a subsequence is an item of the sequence. */
  lemma {:induction false} SubseqMembers<T>(a: seq<T>, b: seq<T>, x: T)
    requires IsSubseq(a, b)
    requires x in a
    ensures x in b
    decreases |b|
  {
    if a[0] == b[0] && IsSubseq(a[1..], b[1..]) {
      if x != a[0] {
        SubseqMembers(a[1..], b[1..], x);
      }
    } else {
      SubseqMembers(a, b[1..], x);
    }
  }
}
