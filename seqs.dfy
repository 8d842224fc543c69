/** Order-preserving selection from a sequence: what "remove while keeping the rest in order" leaves. */
module Seqs {

  /** `a` is `b` with some elements left out and the rest in their original order. */
  predicate IsSubseq<T(==)>(a: seq<T>, b: seq<T>)
    decreases |b|
  {
    if a == [] then true
    else if b == [] then false
    else (a[|a| - 1] == b[|b| - 1] && IsSubseq(a[..|a| - 1], b[..|b| - 1]))
         || IsSubseq(a, b[..|b| - 1])
  }

  /** `s` with the element at index `j` removed (what `list.remove` does to that element). */
  function Without<T>(s: seq<T>, j: nat): (r: seq<T>)
    requires j < |s|
    ensures |r| == |s| - 1
  {
    s[..j] + s[j + 1..]
  }

  lemma SubseqExtend<T>(a: seq<T>, b: seq<T>, x: T)
    requires IsSubseq(a, b)
    ensures IsSubseq(a + [x], b + [x]) && IsSubseq(a, b + [x])
  {
    assert (a + [x])[..|a|] == a;
    assert (b + [x])[..|b|] == b;
  }

  lemma {:induction false} SubseqRefl<T>(a: seq<T>)
    ensures IsSubseq(a, a)
    decreases |a|
  {
    if a != [] {
      SubseqRefl(a[..|a| - 1]);
    }
  }

  lemma {:induction false} SubseqTrans<T>(a: seq<T>, b: seq<T>, c: seq<T>)
    requires IsSubseq(a, b) && IsSubseq(b, c)
    ensures IsSubseq(a, c)
    decreases |c|
  {
    if a == [] || c == [] {
      return;
    }
    assert b != [];
    var a', b', c' := a[..|a| - 1], b[..|b| - 1], c[..|c| - 1];
    if b[|b| - 1] == c[|c| - 1] && IsSubseq(b', c') {
      if a[|a| - 1] == b[|b| - 1] && IsSubseq(a', b') {
        SubseqTrans(a', b', c');
      } else {
        SubseqTrans(a, b', c');
      }
    } else {
      SubseqTrans(a, b, c');
    }
  }

  lemma {:induction false} SubseqWithout<T>(s: seq<T>, j: nat)
    requires j < |s|
    ensures IsSubseq(Without(s, j), s)
    decreases |s|
  {
    var s', x := s[..|s| - 1], s[|s| - 1];
    assert s' + [x] == s;
    if j == |s| - 1 {
      assert Without(s, j) == s';
      SubseqRefl(s');
      SubseqExtend(s', s', x);
    } else {
      SubseqWithout(s', j);
      assert Without(s', j) + [x] == Without(s, j);
      SubseqExtend(Without(s', j), s', x);
    }
  }

  /** The suffix from `i` is element `i` followed by the suffix from `i + 1`. */
  lemma SplitAt<T>(s: seq<T>, i: nat)
    requires i < |s|
    ensures s[i..] == [s[i]] + s[i + 1..]
  {
  }

  /** Overwriting the element that follows `d`. */
  lemma ReplaceAfter<T>(d: seq<T>, x: T, r: seq<T>, y: T)
    ensures (d + [x] + r)[|d| := y] == d + [y] + r
  {
  }

  /** Removing the element that follows `d`. */
  lemma RemoveAfter<T>(d: seq<T>, y: T, r: seq<T>)
    ensures (d + [y] + r)[..|d|] + (d + [y] + r)[|d| + 1..] == d + r
  {
    assert (d + [y] + r)[..|d|] == d;
    assert (d + [y] + r)[|d| + 1..] == r;
  }
}
