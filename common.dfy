/** Small value types and sequence helpers shared by every module of the model. */
module Common {

  /** A value that may be absent: PHP's null, JavaScript's null or undefined. */
  datatype Option<+T> = None | Some(value: T)

  /** The elements of `s` that satisfy `p`, in their original order (`Array.prototype.filter`). */
  function Filter<T>(s: seq<T>, p: T -> bool): (r: seq<T>)
    ensures |r| <= |s|
    ensures forall i :: 0 <= i < |r| ==> p(r[i])
    ensures forall i :: 0 <= i < |r| ==> r[i] in s
    ensures forall i :: 0 <= i < |s| && p(s[i]) ==> s[i] in r
    ensures multiset(r) <= multiset(s)
  {
    if s == [] then []
    else
      var rest := Filter(s[1..], p);
      var r := if p(s[0]) then [s[0]] + rest else rest;
      FilterCons(s, p, rest, r);
      r
  }

  /** The step of `Filter`: keeping or dropping the head of `s` after filtering its tail. */
  lemma FilterCons<T>(s: seq<T>, p: T -> bool, rest: seq<T>, r: seq<T>)
    requires s != [] && r == if p(s[0]) then [s[0]] + rest else rest
    requires |rest| <= |s[1..]|
    requires forall i :: 0 <= i < |rest| ==> p(rest[i])
    requires forall i :: 0 <= i < |rest| ==> rest[i] in s[1..]
    requires forall i :: 0 <= i < |s[1..]| && p(s[1..][i]) ==> s[1..][i] in rest
    requires multiset(rest) <= multiset(s[1..])
    ensures |r| <= |s|
    ensures forall i :: 0 <= i < |r| ==> p(r[i])
    ensures forall i :: 0 <= i < |r| ==> r[i] in s
    ensures forall i :: 0 <= i < |s| && p(s[i]) ==> s[i] in r
    ensures multiset(r) <= multiset(s)
  {
    assert s == [s[0]] + s[1..];
    forall i | 0 <= i < |s| && p(s[i])
      ensures s[i] in r
    {
      if i > 0 {
        assert s[i] == s[1..][i - 1];
      }
    }
  }

  /** Filtering distributes over concatenation, so filtering keeps relative order. */
  lemma {:induction false} FilterConcat<T>(a: seq<T>, b: seq<T>, p: T -> bool)
    ensures Filter(a + b, p) == Filter(a, p) + Filter(b, p)
  {
    if a == [] {
      assert a + b == b;
    } else {
      assert (a + b)[1..] == a[1..] + b;
      FilterConcat(a[1..], b, p);
    }
  }

  /** Appending `f` of the next element keeps `rows` equal to `f` applied element by element. */
  lemma PointwiseAppend<A, B>(xs: seq<A>, rows: seq<B>, row: B, f: A -> B)
    requires |rows| < |xs| && row == f(xs[|rows|])
    requires forall k :: 0 <= k < |rows| ==> rows[k] == f(xs[k])
    ensures forall k :: 0 <= k < |rows| + 1 ==> (rows + [row])[k] == f(xs[k])
  {
  }

  /** Filtering by `p` first changes nothing for a filter `q` that only admits elements `p` admits. */
  lemma {:induction false} FilterImplied<T>(s: seq<T>, p: T -> bool, q: T -> bool)
    requires forall x :: q(x) ==> p(x)
    ensures Filter(Filter(s, p), q) == Filter(s, q)
  {
    if s != [] {
      FilterImplied(s[1..], p, q);
      if p(s[0]) {
        var rest := Filter(s[1..], p);
        assert Filter(s, p) == [s[0]] + rest;
        FilterConcat([s[0]], rest, q);
        assert Filter([s[0]] + rest, q) == Filter([s[0]], q) + Filter(rest, q);
        assert ([s[0]] + rest)[1..] == rest;
      }
    }
  }

  /** Filtering a sequence whose every element passes leaves it unchanged. */
  lemma {:induction false} FilterAll<T>(s: seq<T>, p: T -> bool)
    requires forall i :: 0 <= i < |s| ==> p(s[i])
    ensures Filter(s, p) == s
  {
    if s != [] {
      FilterAll(s[1..], p);
    }
  }

  /** Filtering a sequence none of whose elements pass gives the empty sequence. */
  lemma {:induction false} FilterNone<T>(s: seq<T>, p: T -> bool)
    requires forall i :: 0 <= i < |s| ==> !p(s[i])
    ensures Filter(s, p) == []
  {
    if s != [] {
      FilterNone(s[1..], p);
    }
  }

  /** The set of entries of a sequence. */
  function Elems<T>(s: seq<T>): set<T> {
    set x | x in s
  }

  lemma ElemsAppend<T>(s: seq<T>, x: T)
    ensures Elems(s + [x]) == Elems(s) + {x}
  {
  }

  /** `s.map(f)`, written element by element. */
  function MapSeq<A, B>(s: seq<A>, f: A -> B): seq<B> {
    if s == [] then [] else [f(s[0])] + MapSeq(s[1..], f)
  }

  /** Position `j` of `MapSeq(s, f)` is `f(s[j])`. */
  lemma {:induction false} MapSeqAt<A, B>(s: seq<A>, f: A -> B, j: nat)
    requires j < |s|
    ensures |MapSeq(s, f)| == |s| && MapSeq(s, f)[j] == f(s[j])
  {
    if j == 0 {
      if |s| > 1 {
        MapSeqAt(s[1..], f, 0);
      }
    } else {
      MapSeqAt(s[1..], f, j - 1);
      assert s[1..][j - 1] == s[j];
    }
  }

  /** Concatenation is associative; stated once so that callers need not reason element-wise. */
  lemma AppendAssoc<T>(a: seq<T>, b: seq<T>, c: seq<T>)
    ensures (a + b) + c == a + (b + c)
  {
  }

  /** No entry of `s` occurs twice. */
  predicate NoDuplicates<T(==)>(s: seq<T>) {
    forall i, j :: 0 <= i < j < |s| ==> s[i] != s[j]
  }

  /** Number of elements of `s` that satisfy `p`. */
  function Count<T>(s: seq<T>, p: T -> bool): (n: nat)
    ensures n <= |s|
    ensures n == |Filter(s, p)|
  {
    |Filter(s, p)|
  }

  /** `Math.round(num / den)` for a positive denominator: the nearest integer, halves upwards. */
  function RoundDiv(num: int, den: int): (r: int)
    requires den > 0
    ensures 2 * r * den <= 2 * num + den < 2 * (r + 1) * den
  {
    var q := (2 * num + den) / (2 * den);
    assert 2 * num + den == q * (2 * den) + (2 * num + den) % (2 * den);
    q
  }

  /** Cancelling a positive factor from both sides of a strict inequality. */
  lemma MulLessCancel(a: int, b: int, d: int)
    requires d > 0 && a * d < b * d
    ensures a < b
  {
    MulSign(a - b, d);
    assert a * d - b * d == (a - b) * d;
  }

  lemma MulSign(x: int, d: int)
    requires d > 0
    ensures x >= 0 ==> x * d >= 0
  {
  }

  /** Rounding is monotone in the numerator. */
  lemma RoundDivMonotone(a: int, b: int, den: int)
    requires den > 0 && a <= b
    ensures RoundDiv(a, den) <= RoundDiv(b, den)
  {
    var ra, rb := RoundDiv(a, den), RoundDiv(b, den);
    assert ra * (2 * den) < (rb + 1) * (2 * den);
    MulLessCancel(ra, rb + 1, 2 * den);
  }

  /** Rounding a quotient that lies between two integers gives a value between them. */
  lemma RoundDivBetween(num: int, den: int, lo: int, hi: int)
    requires den > 0 && lo * den <= num <= hi * den
    ensures lo <= RoundDiv(num, den) <= hi
  {
    var r := RoundDiv(num, den);
    assert lo * (2 * den) < (r + 1) * (2 * den);
    MulLessCancel(lo, r + 1, 2 * den);
    assert r * (2 * den) < (hi + 1) * (2 * den);
    MulLessCancel(r, hi + 1, 2 * den);
  }

  /** An exact quotient rounds to itself. */
  lemma RoundDivExact(k: int, den: int)
    requires den > 0
    ensures RoundDiv(k * den, den) == k
  {
    RoundDivBetween(k * den, den, k, k);
  }
}
