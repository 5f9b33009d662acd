/** Order-preserving selection and stable sorting of table rows: the shapes of
    pandas' boolean-mask filtering, `dropna` after a coercing parse, and
    `sort_values`. */
module Sequences {
  import opened Basics

  function Keep<U>(o: Option<U>): seq<U> {
    if o.Some? then [o.value] else []
  }

  /** The images under `f` of the elements `f` accepts, in their original order. */
  function FilterMap<T, U>(s: seq<T>, f: T -> Option<U>): (r: seq<U>)
    ensures |r| <= |s|
  {
    if s == [] then [] else FilterMap(s[..|s| - 1], f) + Keep(f(s[|s| - 1]))
  }

  /** Where each element of `FilterMap(s, f)` came from: the result is exactly
      the accepted elements of `s`, each once, in increasing position. */
  function Positions<T, U>(s: seq<T>, f: T -> Option<U>): (p: seq<nat>)
    ensures |p| == |FilterMap(s, f)|
    ensures forall k :: 0 <= k < |p| ==> p[k] < |s| && f(s[p[k]]) == Some(FilterMap(s, f)[k])
    ensures forall k, l :: 0 <= k < l < |p| ==> p[k] < p[l]
    ensures forall i :: 0 <= i < |s| && f(s[i]).Some? ==> i in p
  {
    if s == [] then []
    else
      var q := Positions(s[..|s| - 1], f);
      if f(s[|s| - 1]).Some? then q + [|s| - 1] else q
  }

  /** An accepted element's place among the selected ones. */
  lemma PositionOf<T, U>(s: seq<T>, f: T -> Option<U>, j: nat) returns (m: nat)
    requires j < |s| && f(s[j]).Some?
    ensures m < |Positions(s, f)| && Positions(s, f)[m] == j
    ensures FilterMap(s, f)[m] == f(s[j]).value
  {
    var p := Positions(s, f);
    assert j in p;
    m :| 0 <= m < |p| && p[m] == j;
  }

  lemma FilterMapSingle<T, U>(a: T, f: T -> Option<U>)
    ensures FilterMap([a], f) == Keep(f(a))
  {
    assert [a][..0] == [];
  }

  lemma FilterMapPair<T, U>(a: T, b: T, f: T -> Option<U>)
    ensures FilterMap([a, b], f) == Keep(f(a)) + Keep(f(b))
  {
    assert [a, b][..1] == [a];
    FilterMapSingle(a, f);
  }

  lemma FilterMapTriple<T, U>(a: T, b: T, c: T, f: T -> Option<U>)
    ensures FilterMap([a, b, c], f) == Keep(f(a)) + Keep(f(b)) + Keep(f(c))
  {
    assert [a, b, c][..2] == [a, b];
    FilterMapPair(a, b, f);
  }

  /** Selecting from a concatenation selects from each part. */
  lemma {:induction false} FilterMapAppend<T, U>(a: seq<T>, b: seq<T>, f: T -> Option<U>)
    ensures FilterMap(a + b, f) == FilterMap(a, f) + FilterMap(b, f)
    decreases |b|
  {
    if b == [] {
      assert a + b == a;
    } else {
      var b' := b[..|b| - 1];
      assert (a + b)[..|a + b| - 1] == a + b';
      assert (a + b)[|a + b| - 1] == b[|b| - 1];
      FilterMapAppend(a, b', f);
    }
  }

  /** Nothing is selected exactly when no element is accepted. */
  lemma FilterMapEmpty<T, U>(s: seq<T>, f: T -> Option<U>)
    ensures FilterMap(s, f) == [] <==> forall i :: 0 <= i < |s| ==> f(s[i]).None?
  {
    var p := Positions(s, f);
    if FilterMap(s, f) != [] {
      assert 0 < |p| && p[0] < |s| && f(s[p[0]]).Some?;
    }
  }

  ghost predicate TotalPreorder<T(!new)>(le: (T, T) -> bool) {
    && (forall x, y :: le(x, y) || le(y, x))
    && (forall x, y, z :: le(x, y) && le(y, z) ==> le(x, z))
  }

  predicate SortedBy<T>(s: seq<T>, le: (T, T) -> bool) {
    forall i, j :: 0 <= i < j < |s| ==> le(s[i], s[j])
  }

  /** Inserts `x` after every element that is not above it, so equal keys keep
      their order. */
  function InsertBy<T>(x: T, s: seq<T>, le: (T, T) -> bool): seq<T> {
    if s == [] then [x]
    else if !le(s[0], x) then [x] + s
    else [s[0]] + InsertBy(x, s[1..], le)
  }

  /** A stable sort: insertion of each element, left to right. */
  function SortBy<T>(s: seq<T>, le: (T, T) -> bool): seq<T> {
    if s == [] then [] else InsertBy(s[|s| - 1], SortBy(s[..|s| - 1], le), le)
  }

  lemma {:induction false} InsertByMultiset<T>(x: T, s: seq<T>, le: (T, T) -> bool)
    ensures multiset(InsertBy(x, s, le)) == multiset(s) + multiset{x}
  {
    if s != [] && le(s[0], x) {
      InsertByMultiset(x, s[1..], le);
      assert s == [s[0]] + s[1..];
    }
  }

  /** Prepending an element below every element keeps a sequence sorted. */
  lemma SortedCons<T>(a: T, r: seq<T>, le: (T, T) -> bool)
    requires SortedBy(r, le)
    requires forall j :: 0 <= j < |r| ==> le(a, r[j])
    ensures SortedBy([a] + r, le)
  {
    var c := [a] + r;
    forall i, j | 0 <= i < j < |c|
      ensures le(c[i], c[j])
    {
      assert c[j] == r[j - 1];
      if 0 < i {
        assert c[i] == r[i - 1];
      }
    }
  }

  lemma SortedTail<T>(s: seq<T>, le: (T, T) -> bool)
    requires s != [] && SortedBy(s, le)
    ensures SortedBy(s[1..], le)
  {
    var tail := s[1..];
    forall i, j | 0 <= i < j < |tail|
      ensures le(tail[i], tail[j])
    {
      assert tail[i] == s[i + 1] && tail[j] == s[j + 1];
    }
  }

  /** The head of a sorted sequence is below everything inserting `x` into its
      tail gives, when it is below `x`. */
  lemma HeadBelowInsert<T>(x: T, s: seq<T>, le: (T, T) -> bool)
    requires s != [] && SortedBy(s, le) && le(s[0], x)
    ensures forall j :: 0 <= j < |InsertBy(x, s[1..], le)| ==> le(s[0], InsertBy(x, s[1..], le)[j])
  {
    var tail := s[1..];
    var rest := InsertBy(x, tail, le);
    InsertByMultiset(x, tail, le);
    forall j | 0 <= j < |rest|
      ensures le(s[0], rest[j])
    {
      var e := rest[j];
      assert e in multiset(rest);
      if e != x {
        assert e in multiset(tail);
        var k :| 0 <= k < |tail| && tail[k] == e;
        assert tail[k] == s[k + 1];
      }
    }
  }

  lemma {:induction false} InsertBySorted<T(!new)>(x: T, s: seq<T>, le: (T, T) -> bool)
    requires TotalPreorder(le)
    requires SortedBy(s, le)
    ensures SortedBy(InsertBy(x, s, le), le)
  {
    if s == [] {
    } else if !le(s[0], x) {
      assert le(x, s[0]);
      forall j | 0 <= j < |s|
        ensures le(x, s[j])
      {
        if 0 < j {
          assert le(s[0], s[j]);
        }
      }
      SortedCons(x, s, le);
    } else {
      SortedTail(s, le);
      InsertBySorted(x, s[1..], le);
      HeadBelowInsert(x, s, le);
      SortedCons(s[0], InsertBy(x, s[1..], le), le);
    }
  }

  lemma SortPairInOrder<T>(a: T, b: T, le: (T, T) -> bool)
    requires le(a, b)
    ensures SortBy([a, b], le) == [a, b]
  {
    assert [a, b][..1] == [a] && [a][..0] == [];
    assert SortBy([a], le) == [a];
    assert [a][1..] == [];
    assert InsertBy(b, [a], le) == [a] + InsertBy(b, [], le);
  }

  /** `SortBy` orders by `le` and only rearranges. */
  lemma {:induction false} SortBySorted<T(!new)>(s: seq<T>, le: (T, T) -> bool)
    requires TotalPreorder(le)
    ensures SortedBy(SortBy(s, le), le)
    ensures multiset(SortBy(s, le)) == multiset(s)
  {
    if s != [] {
      var init := s[..|s| - 1];
      SortBySorted(init, le);
      InsertBySorted(s[|s| - 1], SortBy(init, le), le);
      InsertByMultiset(s[|s| - 1], SortBy(init, le), le);
      assert s == init + [s[|s| - 1]];
    }
  }

  /** Applies `f`, then `g` to what `f` accepts. */
  function Then<T, U, V>(f: T -> Option<U>, g: U -> Option<V>): T -> Option<V> {
    x => if f(x).Some? then g(f(x).value) else None
  }

  /** Selecting twice is selecting once with the composed test. */
  lemma {:induction false} FilterMapThen<T, U, V>(s: seq<T>, f: T -> Option<U>, g: U -> Option<V>)
    ensures FilterMap(FilterMap(s, f), g) == FilterMap(s, Then(f, g))
  {
    if s != [] {
      var init := s[..|s| - 1];
      FilterMapThen(init, f, g);
      FilterMapAppend(FilterMap(init, f), Keep(f(s[|s| - 1])), g);
    }
  }

  /** The last element selected comes from an accepted element after which no
      element is accepted. */
  lemma {:induction false} FilterMapLast<T, U>(s: seq<T>, f: T -> Option<U>)
    requires FilterMap(s, f) != []
    ensures exists k :: 0 <= k < |s| && f(s[k]) == Some(FilterMap(s, f)[|FilterMap(s, f)| - 1])
              && forall l :: k < l < |s| ==> f(s[l]).None?
  {
    var n := |s| - 1;
    if f(s[n]).None? {
      var init := s[..n];
      FilterMapLast(init, f);
      var k :| 0 <= k < |init| && f(init[k]) == Some(FilterMap(init, f)[|FilterMap(init, f)| - 1])
                && forall l :: k < l < |init| ==> f(init[l]).None?;
      assert s[k] == init[k];
      forall l | k < l < |s|
        ensures f(s[l]).None?
      {
        if l < n {
          assert s[l] == init[l];
        }
      }
    }
  }

  /** Python's ordering of strings: code point by code point, a proper prefix first. */
  predicate StrLe(a: string, b: string) {
    a == [] || (b != [] && (a[0] < b[0] || (a[0] == b[0] && StrLe(a[1..], b[1..]))))
  }

  lemma {:induction false} StrLeTotal(a: string, b: string)
    ensures StrLe(a, b) || StrLe(b, a)
  {
    if a != [] && b != [] && a[0] == b[0] {
      StrLeTotal(a[1..], b[1..]);
    }
  }

  lemma {:induction false} StrLeTransitive(a: string, b: string, c: string)
    requires StrLe(a, b) && StrLe(b, c)
    ensures StrLe(a, c)
  {
    if a != [] && a[0] == b[0] && b[0] == c[0] {
      StrLeTransitive(a[1..], b[1..], c[1..]);
    }
  }

  lemma {:induction false} StrLeAntisymmetric(a: string, b: string)
    requires StrLe(a, b) && StrLe(b, a)
    ensures a == b
  {
    if a != [] {
      StrLeAntisymmetric(a[1..], b[1..]);
      assert a == [a[0]] + a[1..] && b == [b[0]] + b[1..];
    }
  }

  /** A common prefix does not change the order. */
  lemma {:induction false} StrLeCommonPrefix(p: string, a: string, b: string)
    requires StrLe(a, b)
    ensures StrLe(p + a, p + b)
  {
    if p == [] {
      assert p + a == a && p + b == b;
    } else {
      StrLeCommonPrefix(p[1..], a, b);
      assert (p + a)[0] == p[0] == (p + b)[0];
      assert (p + a)[1..] == p[1..] + a && (p + b)[1..] == p[1..] + b;
    }
  }
}
