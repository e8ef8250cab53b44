/** Kotlin's `filter` over lists, and the subsequence relation it produces. */
module Lists {

  /** `a` is obtained from `b` by dropping elements, keeping the order of the rest. */
  predicate IsSubseq<T(==)>(a: seq<T>, b: seq<T>)
    decreases |b|
  {
    a == [] || (b != [] && ((a[0] == b[0] && IsSubseq(a[1..], b[1..])) || IsSubseq(a, b[1..])))
  }

  /** `filter(f)`: the elements of `s` that satisfy `f`; see KeepSpec. */
  function Keep<T>(s: seq<T>, f: T -> bool): seq<T>
  {
    if s == [] then []
    else if f(s[0]) then [s[0]] + Keep(s[1..], f)
    else Keep(s[1..], f)
  }

  /** `filter` keeps the order of what it keeps. */
  lemma {:induction false} KeepSubseq<T>(s: seq<T>, f: T -> bool)
    ensures IsSubseq(Keep(s, f), s)
  {
    if s != [] {
      KeepSubseq(s[1..], f);
      var rest := Keep(s[1..], f);
      if f(s[0]) {
        assert ([s[0]] + rest)[1..] == rest;
      }
    }
  }

  /**
   * `filter` keeps every element that satisfies `f` as often as `s` holds it,
   * and nothing else.
   */
  lemma {:induction false} KeepCount<T(!new)>(s: seq<T>, f: T -> bool)
    ensures forall x :: multiset(Keep(s, f))[x] == if f(x) then multiset(s)[x] else 0
  {
    if s != [] {
      KeepCount(s[1..], f);
      assert s == [s[0]] + s[1..];
      assert multiset(s) == multiset{s[0]} + multiset(s[1..]);
    }
  }

  /** When every element satisfies `f`, `filter` returns its input. */
  lemma {:induction false} KeepAll<T>(s: seq<T>, f: T -> bool)
    requires forall i :: 0 <= i < |s| ==> f(s[i])
    ensures Keep(s, f) == s
  {
    if s != [] {
      KeepAll(s[1..], f);
      assert s == [s[0]] + s[1..];
    }
  }

  /** Every element `filter` keeps comes from `s` and satisfies `f`. */
  lemma KeepMember<T(!new)>(s: seq<T>, f: T -> bool, x: T)
    requires x in Keep(s, f)
    ensures x in s && f(x)
  {
    KeepCount(s, f);
    assert multiset(Keep(s, f))[x] > 0;
  }

  lemma {:induction false} KeepAppend<T>(a: seq<T>, b: seq<T>, f: T -> bool)
    ensures Keep(a + b, f) == Keep(a, f) + Keep(b, f)
  {
    if a == [] {
      assert a + b == b;
    } else {
      assert (a + b)[1..] == a[1..] + b;
      KeepAppend(a[1..], b, f);
    }
  }
}
