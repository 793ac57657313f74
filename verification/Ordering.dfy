/** Orders and the enumerations they induce. An ordered tree set or map of the
    source is modelled as a `set` or `map`; walking it in order, or collecting it
    into a vector and sorting that vector, is `SortedBy` under the order in use. */
module Ordering {

  const U64_MAX: nat := 0xFFFF_FFFF_FFFF_FFFF

  datatype Option<+T> = None | Some(value: T)

  /** Lexicographic order on strings by scalar value. */
  predicate Less(a: string, b: string)
  {
    if b == "" then false
    else if a == "" then true
    else a[0] < b[0] || (a[0] == b[0] && Less(a[1..], b[1..]))
  }

  lemma {:induction false} LessIrreflexive(a: string)
    ensures !Less(a, a)
  {
    if a != "" { LessIrreflexive(a[1..]); }
  }

  lemma {:induction false} LessTotal(a: string, b: string)
    ensures a == b || Less(a, b) || Less(b, a)
  {
    if a != "" && b != "" && a[0] == b[0] {
      LessTotal(a[1..], b[1..]);
      assert a == [a[0]] + a[1..] && b == [b[0]] + b[1..];
    }
  }

  lemma {:induction false} LessTransitive(a: string, b: string, c: string)
    requires Less(a, b) && Less(b, c)
    ensures Less(a, c)
  {
    if a != "" && a[0] == b[0] && b[0] == c[0] {
      LessTransitive(a[1..], b[1..], c[1..]);
    }
  }

  /** `lt` is a strict total order on the elements of `s`. */
  ghost predicate TotalOn<T>(lt: (T, T) -> bool, s: set<T>)
  {
    && (forall x | x in s :: !lt(x, x))
    && (forall x, y | x in s && y in s && x != y :: lt(x, y) || lt(y, x))
    && (forall x, y, z | x in s && y in s && z in s && lt(x, y) && lt(y, z) :: lt(x, z))
  }

  predicate IsLeast<T(==)>(lt: (T, T) -> bool, s: set<T>, x: T)
  {
    x in s && forall y | y in s :: y == x || lt(x, y)
  }

  lemma {:induction false} LeastExists<T>(lt: (T, T) -> bool, s: set<T>)
    requires s != {} && TotalOn(lt, s)
    ensures exists x :: IsLeast(lt, s, x)
    decreases s
  {
    var x :| x in s;
    if s - {x} == {} {
      assert s == {x};
      assert IsLeast(lt, s, x);
    } else {
      LeastExists(lt, s - {x});
      var y :| IsLeast(lt, s - {x}, y);
      assert IsLeast(lt, s, if lt(x, y) then x else y);
    }
  }

  /** The least element of a non-empty set. */
  function LeastBy<T(==)>(lt: (T, T) -> bool, s: set<T>): (r: T)
    requires s != {} && TotalOn(lt, s)
    ensures IsLeast(lt, s, r)
  {
    LeastExists(lt, s);
    var x :| x in s && IsLeast(lt, s, x);
    x
  }

  /** Each element comes strictly before the ones after it. */
  ghost predicate Ascending<T>(lt: (T, T) -> bool, q: seq<T>)
  {
    forall i, j | 0 <= i < j < |q| :: lt(q[i], q[j])
  }

  function Elements<T(==)>(q: seq<T>): (s: set<T>)
  {
    set x | x in q
  }

  /** The elements of `s` from least to greatest. */
  function SortedBy<T(==)>(lt: (T, T) -> bool, s: set<T>): (q: seq<T>)
    requires TotalOn(lt, s)
    ensures Elements(q) == s && |q| == |s|
  {
    if s == {} then [] else
    var x := LeastBy(lt, s);
    assert s == {x} + (s - {x});
    [x] + SortedBy(lt, s - {x})
  }

  lemma PrependLeast<T>(lt: (T, T) -> bool, x: T, rest: seq<T>)
    requires Ascending(lt, rest) && NoDuplicates(rest)
    requires forall y | y in Elements(rest) :: x != y && lt(x, y)
    ensures Ascending(lt, [x] + rest) && NoDuplicates([x] + rest)
  {
    forall j | 0 <= j < |rest|
      ensures lt(x, rest[j]) && x != rest[j]
    {
      assert rest[j] in Elements(rest);
    }
  }

  lemma {:induction false} SortedByAscends<T>(lt: (T, T) -> bool, s: set<T>)
    requires TotalOn(lt, s)
    ensures Ascending(lt, SortedBy(lt, s)) && NoDuplicates(SortedBy(lt, s))
    decreases s
  {
    if s != {} {
      var x := LeastBy(lt, s);
      SortedByAscends(lt, s - {x});
      var rest := SortedBy(lt, s - {x});
      PrependLeast(lt, x, rest);
    }
  }

  lemma OneElement<T>(q: seq<T>, x: T)
    requires Elements(q) == {x} && |q| == 1
    ensures q == [x]
  {
    assert q[0] in Elements(q);
  }

  lemma NoElements<T>(q: seq<T>)
    ensures Elements(q) == {} <==> q == []
  {
    if q != [] { assert q[0] in Elements(q); }
  }

  function Take<T>(q: seq<T>, n: nat): (p: seq<T>)
    ensures p <= q && |p| == if n < |q| then n else |q|
  {
    if n < |q| then q[..n] else q
  }

  /** What `f` makes of each element. */
  function Mapped<T, U>(f: T -> U, q: seq<T>): (r: seq<U>)
    ensures |r| == |q| && forall i | 0 <= i < |q| :: r[i] == f(q[i])
  {
    seq(|q|, i requires 0 <= i < |q| => f(q[i]))
  }

  /** An ascending sequence is determined by its elements: whatever order a
      collection was gathered in, sorting it gives one and the same sequence. */
  lemma {:induction false} AscendingIsUnique<T>(lt: (T, T) -> bool, a: seq<T>, b: seq<T>)
    requires TotalOn(lt, Elements(a)) && Elements(a) == Elements(b)
    requires Ascending(lt, a) && Ascending(lt, b)
    ensures a == b
  {
    if a == [] {
      NoElements(b);
    } else {
      assert a[0] in Elements(b);
      assert b[0] in Elements(a);
      assert a[0] == b[0];
      forall x
        ensures x in a[1..] <==> x in b[1..]
      {
        if x in a[1..] { assert x in Elements(a); assert x != a[0]; }
        if x in b[1..] { assert x in Elements(b); assert x != b[0]; }
      }
      assert Elements(a[1..]) <= Elements(a);
      AscendingIsUnique(lt, a[1..], b[1..]);
      assert a == [a[0]] + a[1..] && b == [b[0]] + b[1..];
    }
  }

  ghost predicate NoDuplicates<T>(q: seq<T>)
  {
    forall i, j | 0 <= i < j < |q| :: q[i] != q[j]
  }

  lemma SubsetCount<T>(a: set<T>, b: set<T>)
    requires a <= b
    ensures |a| <= |b|
    ensures |a| == |b| ==> a == b
  {
    assert b == a + (b - a);
  }

  lemma LessIsTotal(s: set<string>)
    ensures TotalOn(Less, s)
  {
    hide Less;
    forall x, y | x in s && y in s
      ensures !Less(x, x) && (x != y ==> Less(x, y) || Less(y, x))
    {
      LessIrreflexive(x);
      LessTotal(x, y);
    }
    forall x, y, z | x in s && y in s && z in s && Less(x, y) && Less(y, z)
      ensures Less(x, z)
    {
      LessTransitive(x, y, z);
    }
  }

  /** The first key in string order, if there is one. */
  function First(s: set<string>): (r: Option<string>)
    ensures r.None? <==> s == {}
    ensures r.Some? ==> r.value in s && forall k | k in s :: k == r.value || Less(r.value, k)
  {
    LessIsTotal(s);
    if s == {} then None else Some(LeastBy(Less, s))
  }

  /** Keys in string order. */
  function InOrder(s: set<string>): (q: seq<string>)
    ensures Elements(q) == s && |q| == |s|
  {
    LessIsTotal(s);
    SortedBy(Less, s)
  }

  lemma InOrderAscends(s: set<string>)
    ensures Ascending(Less, InOrder(s)) && NoDuplicates(InOrder(s))
  {
    LessIsTotal(s);
    SortedByAscends(Less, s);
  }

  /** Walking keys in order, the first hit is the least hit. */
  lemma FirstHitIsFirst(q: seq<string>, i: nat, hits: set<string>)
    requires Ascending(Less, q) && i < |q| && hits <= Elements(q) && q[i] in hits
    requires forall j | 0 <= j < i :: q[j] !in hits
    ensures First(hits) == Some(q[i])
  {
    hide Less;
    var k := First(hits).value;
    assert k in Elements(q);
    var j :| 0 <= j < |q| && q[j] == k;
    if j != i {
      assert i < j && Less(q[i], k);
      LessIrreflexive(k);
      if Less(k, q[i]) { LessTransitive(k, q[i], k); }
    }
  }
}
