/** Facts about lists built by concatenating one piece per element: both the
    loop over directory arguments and a glob over a directory listing build
    their results this way. */
module Lists {
  /** `f` applied to each element, the results concatenated in order. */
  function ConcatMap<T, U>(s: seq<T>, f: T -> seq<U>): seq<U>
  {
    if s == [] then [] else f(s[0]) + ConcatMap(s[1..], f)
  }

  lemma {:induction false} ConcatMapConcat<T, U>(a: seq<T>, b: seq<T>, f: T -> seq<U>)
    ensures ConcatMap(a + b, f) == ConcatMap(a, f) + ConcatMap(b, f)
  {
    if a == [] {
      assert a + b == b;
    } else {
      assert (a + b)[1..] == a[1..] + b;
      ConcatMapConcat(a[1..], b, f);
    }
  }

  /** Taking the middle part out of a sequence takes its elements out. */
  lemma MultisetWithout<U>(p: seq<U>, y: seq<U>, q: seq<U>)
    ensures multiset(p + y + q) == multiset(y) + multiset(p + q)
  {
  }

  /** The output for `p + [x] + q` is that of `x` plus that of `p + q`. */
  lemma ConcatMapMiddle<T, U>(p: seq<T>, x: T, q: seq<T>, f: T -> seq<U>)
    ensures multiset(ConcatMap(p + [x] + q, f)) == multiset(f(x)) + multiset(ConcatMap(p + q, f))
  {
    ConcatMapConcat(p + [x], q, f);
    ConcatMapConcat(p, [x], f);
    ConcatMapConcat(p, q, f);
    assert ConcatMap([x], f) == f(x);
    MultisetWithout(ConcatMap(p, f), f(x), ConcatMap(q, f));
  }

  /** Of two permutations of each other, the second is the first's head
      placed somewhere among a permutation of the first's tail. */
  lemma PermutationTail<T>(a: seq<T>, b: seq<T>) returns (p: seq<T>, q: seq<T>)
    requires multiset(a) == multiset(b) && a != []
    ensures b == p + [a[0]] + q
    ensures multiset(a[1..]) == multiset(p + q)
  {
    assert a[0] in multiset(b);
    assert a[0] in b;
    var k :| 0 <= k < |b| && b[k] == a[0];
    p, q := b[..k], b[k + 1..];
    assert b == p + [a[0]] + q;
    assert a == [a[0]] + a[1..];
    calc {
      multiset(a[1..]);
      multiset(a) - multiset{a[0]};
      multiset(b) - multiset{a[0]};
      multiset(p + q);
    }
  }

  /** Reordering the input only reorders the output. */
  lemma {:induction false} ConcatMapPermutation<T, U>(a: seq<T>, b: seq<T>, f: T -> seq<U>)
    requires multiset(a) == multiset(b)
    ensures multiset(ConcatMap(a, f)) == multiset(ConcatMap(b, f))
    decreases |a|
  {
    if a == [] {
      assert |b| == |multiset(b)| == 0;
    } else {
      var p, q := PermutationTail(a, b);
      ConcatMapPermutation(a[1..], p + q, f);
      ConcatMapMiddle(p, a[0], q, f);
      assert ConcatMap(a, f) == f(a[0]) + ConcatMap(a[1..], f);
    }
  }
}
