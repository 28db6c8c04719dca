/** Small vocabulary shared by the model: optional values and iteration order. */
module Collections {
  datatype Option<+T> = None | Some(value: T)

  /** No element occurs twice. */
  ghost predicate Distinct<T>(s: seq<T>) {
    forall i, j :: 0 <= i < j < |s| ==> s[i] != s[j]
  }

  /** `s` lists every element of `xs` once: one of the orders in which a hash map
      may be iterated. */
  ghost predicate Enumerates<T>(s: seq<T>, xs: set<T>) {
    && Distinct(s)
    && (forall x :: x in s ==> x in xs)
    && (forall x :: x in xs ==> x in s)
  }

  /** Positions in a sequence of length `n`, in order. */
  ghost predicate Positions(at: seq<int>, n: nat) {
    && (forall k :: 0 <= k < |at| ==> 0 <= at[k] < n)
    && (forall j, k :: 0 <= j < k < |at| ==> at[j] < at[k])
  }

  /** Lists a set in an order the caller does not control. */
  method Enumerate<T(==)>(xs: set<T>) returns (s: seq<T>)
    ensures Enumerates(s, xs)
  {
    s := [];
    var rest := xs;
    while rest != {}
      invariant rest <= xs
      invariant Enumerates(s, xs - rest)
      decreases rest
    {
      var x :| x in rest;
      s := s + [x];
      rest := rest - {x};
    }
    assert xs - rest == xs;
  }

  /** Every set can be listed in some order. */
  lemma {:induction false} SomeOrder<T>(xs: set<T>) returns (s: seq<T>)
    ensures Enumerates(s, xs)
  {
    s := [];
    if x :| x in xs {
      s := SomeOrder(xs - {x});
      s := s + [x];
    }
  }

  lemma {:induction false} EnumerationSize<T>(s: seq<T>, xs: set<T>)
    requires Enumerates(s, xs)
    ensures |s| == |xs|
  {
    if s == [] {
      assert xs == {};
    } else {
      var head, last := s[..|s| - 1], s[|s| - 1];
      assert s == head + [last];
      EnumerationSize(head, xs - {last});
    }
  }

  lemma SubsetSize<T>(a: set<T>, b: set<T>)
    requires a <= b
    ensures |a| <= |b|
  {
    assert b == a + (b - a);
  }
}
