/**
 The array operations the route handlers use: element access that may miss,
 `Array.prototype.flatMap`, and `[...new Set(xs)]`, which keeps the first
 occurrence of every value in insertion order.
 */
module JsArray {
  import opened Wrappers

  /** `xs[i]`, which is `undefined` past the end of the array. */
  function At<T>(xs: seq<T>, i: nat): (r: Option<T>)
    ensures r.Some? <==> i < |xs|
    ensures r.Some? ==> r.value == xs[i]
  {
    if i < |xs| then Some(xs[i]) else None
  }

  /** Position of the first occurrence of `x` in `s`, or `|s|` when there is none. */
  function FirstIndex<T(==)>(s: seq<T>, x: T): (k: nat)
    ensures k <= |s|
    ensures x !in s[..k]
    ensures k < |s| ==> s[k] == x
    ensures k == |s| <==> x !in s
  {
    if s == [] then 0
    else if s[0] == x then 0
    else
      assert s[1..][..FirstIndex(s[1..], x)] == s[1..1 + FirstIndex(s[1..], x)];
      1 + FirstIndex(s[1..], x)
  }

  ghost predicate NoDuplicates<T>(s: seq<T>) {
    forall i, j :: 0 <= i < j < |s| ==> s[i] != s[j]
  }

  /** `xs.flatMap(f)`: the lists `f(x)` concatenated in the order of `xs`. */
  function FlatMap<A, B(!new)>(xs: seq<A>, f: A -> seq<B>): (r: seq<B>)
    ensures forall y :: y in r <==> exists i :: 0 <= i < |xs| && y in f(xs[i])
  {
    if xs == [] then []
    else
      var rest := FlatMap(xs[1..], f);
      assert forall i :: 1 <= i < |xs| ==> xs[i] == xs[1..][i - 1];
      assert forall y :: y in rest ==> exists i :: 0 <= i < |xs| && y in f(xs[i]) by {
        forall y | y in rest ensures exists i :: 0 <= i < |xs| && y in f(xs[i]) {
          var j :| 0 <= j < |xs[1..]| && y in f(xs[1..][j]);
          assert y in f(xs[j + 1]);
        }
      }
      f(xs[0]) + rest
  }

  /** flatMap distributes over concatenation: the output keeps the order of the input. */
  lemma {:induction false} FlatMapAppend<A, B(!new)>(a: seq<A>, b: seq<A>, f: A -> seq<B>)
    ensures FlatMap(a + b, f) == FlatMap(a, f) + FlatMap(b, f)
  {
    if a == [] {
      assert a + b == b;
    } else {
      assert (a + b)[1..] == a[1..] + b;
      FlatMapAppend(a[1..], b, f);
    }
  }

  /** Every value of `r` occurs in `s` and every value of `s` occurs in `r`. */
  ghost predicate SameElements<T(!new)>(r: seq<T>, s: seq<T>) {
    forall x :: x in r <==> x in s
  }

  /** The values of `r` are listed in the order of their first occurrences in `s`. */
  ghost predicate InFirstOccurrenceOrder<T>(r: seq<T>, s: seq<T>) {
    forall i, j :: 0 <= i < j < |r| ==> FirstIndex(s, r[i]) < FirstIndex(s, r[j])
  }

  /** flatMap sees only the lists `f` produces: inputs with the same lists give the same output. */
  lemma {:induction false} FlatMapSameLists<A, A', B(!new)>(a: seq<A>, f: A -> seq<B>, b: seq<A'>, g: A' -> seq<B>)
    requires |a| == |b|
    requires forall i :: 0 <= i < |a| ==> f(a[i]) == g(b[i])
    ensures FlatMap(a, f) == FlatMap(b, g)
  {
    if a != [] {
      assert forall i :: 0 <= i < |a| - 1 ==> a[1..][i] == a[i + 1] && b[1..][i] == b[i + 1];
      FlatMapSameLists(a[1..], f, b[1..], g);
    }
  }

  /** `r` is `s` with some elements left out, the rest unchanged and in their order. */
  ghost predicate IsSubsequence<T>(r: seq<T>, s: seq<T>)
    decreases |s|
  {
    if r == [] then true
    else if s == [] then false
    else if r[0] == s[0] then IsSubsequence(r[1..], s[1..])
    else IsSubsequence(r, s[1..])
  }

  /**
   `[...new Set(s)]`: a Set is filled element by element, an element already
   present is not added again, and spreading it lists the elements in the
   order they were first added.
   */
  function Distinct<T(==,!new)>(s: seq<T>): (r: seq<T>)
    ensures NoDuplicates(r)
    ensures SameElements(r, s)
    ensures InFirstOccurrenceOrder(r, s)
  {
    if s == [] then []
    else
      var r := Distinct(s[..|s| - 1]);
      DistinctStep(s, r);
      if s[|s| - 1] in r then r else r + [s[|s| - 1]]
  }

  /** One step of filling the Set: the last value of `s` is kept only if it is new. */
  lemma DistinctStep<T(!new)>(s: seq<T>, r: seq<T>)
    requires s != []
    requires NoDuplicates(r) && SameElements(r, s[..|s| - 1]) && InFirstOccurrenceOrder(r, s[..|s| - 1])
    ensures var r' := if s[|s| - 1] in r then r else r + [s[|s| - 1]];
      NoDuplicates(r') && SameElements(r', s) && InFirstOccurrenceOrder(r', s)
  {
    var init, last := s[..|s| - 1], s[|s| - 1];
    assert s == init + [last];
    forall x | x in init ensures FirstIndex(s, x) == FirstIndex(init, x) {
      FirstIndexOfPrefix(init, [last], x);
    }
    if last in r {
      forall i, j | 0 <= i < j < |r| ensures FirstIndex(s, r[i]) < FirstIndex(s, r[j]) {
        assert r[i] in init && r[j] in init;
      }
    } else {
      var r' := r + [last];
      assert s[..|init|] == init;
      assert FirstIndex(s, last) == |init|;
      forall i, j | 0 <= i < j < |r'| ensures FirstIndex(s, r'[i]) < FirstIndex(s, r'[j]) {
        assert r'[i] == r[i];
        assert r[i] in init;
        if j < |r| {
          assert r'[j] == r[j] && r[j] in init;
        }
      }
    }
  }

  lemma {:induction false} FirstIndexOfPrefix<T>(a: seq<T>, b: seq<T>, x: T)
    requires x in a
    ensures FirstIndex(a + b, x) == FirstIndex(a, x)
  {
    if a[0] != x {
      assert (a + b)[1..] == a[1..] + b;
      FirstIndexOfPrefix(a[1..], b, x);
    }
  }

  /** A sequence is its part before `k`, its element at `k` and its part after `k`. */
  lemma Reassemble<T>(s: seq<T>, k: nat)
    requires k < |s|
    ensures s == s[..k] + [s[k]] + s[k + 1..]
  {
  }

  /** A sequence without repeats comes out of the Set spread unchanged. */
  lemma {:induction false} DistinctOfDistinct<T(!new)>(s: seq<T>)
    requires NoDuplicates(s)
    ensures Distinct(s) == s
  {
    if s != [] {
      var init, last := s[..|s| - 1], s[|s| - 1];
      assert NoDuplicates(init) && last !in init by {
        assert forall i :: 0 <= i < |init| ==> init[i] == s[i];
      }
      DistinctOfDistinct(init);
      assert Distinct(s) == init + [last];
      Reassemble(s, |s| - 1);
    }
  }

  /** Deduplicating an already deduplicated list changes nothing. */
  lemma DistinctIdempotent<T(!new)>(s: seq<T>)
    ensures Distinct(Distinct(s)) == Distinct(s)
  {
    DistinctOfDistinct(Distinct(s));
  }

  /**
   The three properties of Distinct's contract determine its result: any list
   without repeats, with the same elements as `s`, listed in the order of their
   first occurrences in `s`, is Distinct(s).
   */
  lemma DistinctUnique<T(!new)>(s: seq<T>, r: seq<T>)
    requires NoDuplicates(r) && SameElements(r, s) && InFirstOccurrenceOrder(r, s)
    ensures r == Distinct(s)
  {
    OrderedSameElementsEqual(s, r, Distinct(s));
  }

  lemma {:induction false} OrderedSameElementsEqual<T(!new)>(s: seq<T>, a: seq<T>, b: seq<T>)
    requires SameElements(a, b)
    requires InFirstOccurrenceOrder(a, s) && InFirstOccurrenceOrder(b, s)
    ensures a == b
    decreases |a|
  {
    assert b != [] ==> b[0] in b;
    if a != [] {
      assert b != [] by {
        assert a[0] in b;
      }
      assert b[0] in a;
      var i :| 0 <= i < |a| && a[i] == b[0];
      assert FirstIndex(s, a[0]) <= FirstIndex(s, b[0]) by {
        assert i > 0 ==> FirstIndex(s, a[0]) < FirstIndex(s, a[i]);
      }
      forall k | 0 < k < |b| ensures b[k] != a[0] {
        assert FirstIndex(s, b[0]) < FirstIndex(s, b[k]);
      }
      assert a[0] in b;
      assert b[0] == a[0];
      HeadRemoved(s, a, b);
      OrderedSameElementsEqual(s, a[1..], b[1..]);
      assert a == [a[0]] + a[1..];
      assert b == [b[0]] + b[1..];
    }
  }

  lemma HeadRemoved<T(!new)>(s: seq<T>, a: seq<T>, b: seq<T>)
    requires a != [] && b != [] && a[0] == b[0]
    requires SameElements(a, b)
    requires InFirstOccurrenceOrder(a, s) && InFirstOccurrenceOrder(b, s)
    ensures SameElements(a[1..], b[1..])
    ensures InFirstOccurrenceOrder(a[1..], s) && InFirstOccurrenceOrder(b[1..], s)
  {
    forall x ensures x in a[1..] <==> x in b[1..] {
      if x in a[1..] {
        var i :| 1 <= i < |a| && a[i] == x;
        assert FirstIndex(s, a[0]) < FirstIndex(s, a[i]);
        assert x in b;
        var k :| 0 <= k < |b| && b[k] == x;
        assert k != 0;
        assert b[1..][k - 1] == x;
      }
      if x in b[1..] {
        var k :| 1 <= k < |b| && b[k] == x;
        assert FirstIndex(s, b[0]) < FirstIndex(s, b[k]);
        assert x in a;
        var i :| 0 <= i < |a| && a[i] == x;
        assert i != 0;
        assert a[1..][i - 1] == x;
      }
    }
    forall i, j | 0 <= i < j < |a| - 1 ensures FirstIndex(s, a[1..][i]) < FirstIndex(s, a[1..][j]) {
      assert a[1..][i] == a[i + 1] && a[1..][j] == a[j + 1];
    }
    forall i, j | 0 <= i < j < |b| - 1 ensures FirstIndex(s, b[1..][i]) < FirstIndex(s, b[1..][j]) {
      assert b[1..][i] == b[i + 1] && b[1..][j] == b[j + 1];
    }
  }
}
