/** Python's `sorted` (and `list.sort`) over a comparison: a stable sort. It is
    modelled as insertion sort that places each new element after every element
    that does not compare greater, which is what keeps equal elements in input order. */
module Sorting {
  import opened Collections

  /** `le` is total and transitive: the order that a key tuple induces. */
  ghost predicate TotalPreorder<T(!new)>(le: (T, T) -> bool) {
    && (forall a, b :: le(a, b) || le(b, a))
    && (forall a, b, c :: le(a, b) && le(b, c) ==> le(a, c))
  }

  /** `a` and `b` have equal sort keys. */
  predicate Equiv<T>(le: (T, T) -> bool, a: T, b: T) {
    le(a, b) && le(b, a)
  }

  predicate Sorted<T>(s: seq<T>, le: (T, T) -> bool) {
    forall i, j :: 0 <= i < j < |s| ==> le(s[i], s[j])
  }

  /** The first position whose element compares strictly greater than `x`, or `|t|`. */
  function FirstGreater<T>(t: seq<T>, x: T, le: (T, T) -> bool): (p: nat)
    ensures p <= |t|
    ensures forall j :: 0 <= j < p ==> le(t[j], x)
    ensures p < |t| ==> !le(t[p], x)
    decreases |t|
  {
    if t == [] then 0
    else if !le(t[0], x) then 0
    else 1 + FirstGreater(t[1..], x, le)
  }

  function Insert<T>(t: seq<T>, x: T, le: (T, T) -> bool): seq<T> {
    var p := FirstGreater(t, x, le);
    t[..p] + [x] + t[p..]
  }

  /** `sorted(s, key=...)` for the order `le`. */
  function SortBy<T>(s: seq<T>, le: (T, T) -> bool): seq<T>
    decreases |s|
  {
    if s == [] then [] else Insert(SortBy(s[..|s| - 1], le), s[|s| - 1], le)
  }

  // ---------------------------------------------------------------- permutation

  lemma {:induction false} SortByPermutation<T>(s: seq<T>, le: (T, T) -> bool)
    ensures multiset(SortBy(s, le)) == multiset(s)
    ensures |SortBy(s, le)| == |s|
    decreases |s|
  {
    if s != [] {
      var init := s[..|s| - 1];
      SortByPermutation(init, le);
      InsertPermutation(SortBy(init, le), s[|s| - 1], le);
      InitLast(s);
    }
  }

  /** Inserting adds exactly the one element. */
  lemma InsertPermutation<T>(t: seq<T>, x: T, le: (T, T) -> bool)
    ensures multiset(Insert(t, x, le)) == multiset(t) + multiset{x}
    ensures |Insert(t, x, le)| == |t| + 1
  {
    var p := FirstGreater(t, x, le);
    assert t == t[..p] + t[p..];
  }

  // ---------------------------------------------------------------- order

  lemma InsertSorted<T(!new)>(t: seq<T>, x: T, le: (T, T) -> bool)
    requires TotalPreorder(le)
    requires Sorted(t, le)
    ensures Sorted(Insert(t, x, le), le)
  {
    var p := FirstGreater(t, x, le);
    var r := Insert(t, x, le);
    forall i, j | 0 <= i < j < |r|
      ensures le(r[i], r[j])
    {
      if j == p {
        assert r[i] == t[i];
      } else if i == p {
        assert r[j] == t[j - 1];
        assert le(t[j - 1], x) || le(x, t[j - 1]);
      } else {
        var ti := if i < p then i else i - 1;
        var tj := if j < p then j else j - 1;
        assert r[i] == t[ti] && r[j] == t[tj];
      }
    }
  }

  lemma {:induction false} SortBySorted<T(!new)>(s: seq<T>, le: (T, T) -> bool)
    requires TotalPreorder(le)
    ensures Sorted(SortBy(s, le), le)
    decreases |s|
  {
    if s != [] {
      SortBySorted(s[..|s| - 1], le);
      InsertSorted(SortBy(s[..|s| - 1], le), s[|s| - 1], le);
    }
  }

  /** Filtering a sorted list keeps it sorted. */
  lemma {:induction false} FilterSorted<T>(s: seq<T>, p: T -> bool, le: (T, T) -> bool)
    requires Sorted(s, le)
    ensures Sorted(Filter(s, p), le)
    decreases |s|
  {
    if s != [] {
      var init, x := s[..|s| - 1], s[|s| - 1];
      FilterSorted(init, p, le);
      FilterSpec(init, p);
      var f := Filter(init, p);
      forall i | 0 <= i < |f|
        ensures le(f[i], x)
      {
        var k :| 0 <= k < |init| && init[k] == f[i];
        assert s[k] == init[k];
      }
    }
  }

  // ---------------------------------------------------------------- stability

  /** The elements of `s` whose key equals that of `y`, in order. */
  function EquivTo<T>(s: seq<T>, y: T, le: (T, T) -> bool): seq<T>
    decreases |s|
  {
    if s == [] then []
    else EquivTo(s[..|s| - 1], y, le) + (if Equiv(le, s[|s| - 1], y) then [s[|s| - 1]] else [])
  }

  lemma SplitAt<T>(t: seq<T>, p: nat)
    requires p <= |t|
    ensures t[..p] + t[p..] == t
  {
  }

  lemma {:induction false} EquivToAppend<T>(a: seq<T>, b: seq<T>, y: T, le: (T, T) -> bool)
    ensures EquivTo(a + b, y, le) == EquivTo(a, y, le) + EquivTo(b, y, le)
    decreases |b|
  {
    if b == [] {
      assert a + b == a;
    } else {
      var b0 := b[..|b| - 1];
      assert (a + b)[..|a + b| - 1] == a + b0;
      assert (a + b)[|a + b| - 1] == b[|b| - 1];
      EquivToAppend(a, b0, y, le);
    }
  }

  lemma {:induction false} EquivToNone<T>(s: seq<T>, y: T, le: (T, T) -> bool)
    requires forall i :: 0 <= i < |s| ==> !Equiv(le, s[i], y)
    ensures EquivTo(s, y, le) == []
    decreases |s|
  {
    if s != [] {
      EquivToNone(s[..|s| - 1], y, le);
    }
  }

  lemma EquivToSingle<T>(x: T, y: T, le: (T, T) -> bool)
    ensures EquivTo([x], y, le) == if Equiv(le, x, y) then [x] else []
  {
    assert [x][..0] == [];
  }

  /** In a sorted sequence, nothing from the first element greater than `x` on has
      the key of `x`. */
  lemma AfterInsertPoint<T(!new)>(t: seq<T>, x: T, y: T, le: (T, T) -> bool)
    requires TotalPreorder(le)
    requires Sorted(t, le)
    requires Equiv(le, x, y)
    ensures EquivTo(t[FirstGreater(t, x, le)..], y, le) == []
  {
    var p := FirstGreater(t, x, le);
    var hi := t[p..];
    forall i | 0 <= i < |hi|
      ensures !Equiv(le, hi[i], y)
    {
      assert hi[i] == t[p + i];
      assert le(t[p], t[p + i]) || i == 0;
      assert le(y, x);
    }
    EquivToNone(hi, y, le);
  }

  lemma EquivToInsertParts<T>(t: seq<T>, x: T, y: T, le: (T, T) -> bool)
    ensures var p := FirstGreater(t, x, le);
      EquivTo(Insert(t, x, le), y, le) == EquivTo(t[..p], y, le) + EquivTo([x], y, le) + EquivTo(t[p..], y, le)
  {
    var p := FirstGreater(t, x, le);
    var l, h := t[..p], t[p..];
    EquivToAppend(l + [x], h, y, le);
    EquivToAppend(l, [x], y, le);
    assert Insert(t, x, le) == l + [x] + h;
  }

  lemma EquivToSplit<T>(t: seq<T>, p: nat, y: T, le: (T, T) -> bool)
    requires p <= |t|
    ensures EquivTo(t, y, le) == EquivTo(t[..p], y, le) + EquivTo(t[p..], y, le)
  {
    SplitAt(t, p);
    EquivToAppend(t[..p], t[p..], y, le);
  }

  /** Inserting `x` changes the elements keyed like `y` only by adding `x` at the end,
      provided nothing after the insertion point is keyed like `x`. */
  lemma InsertEquivTo<T>(t: seq<T>, x: T, y: T, le: (T, T) -> bool)
    requires Equiv(le, x, y) ==> EquivTo(t[FirstGreater(t, x, le)..], y, le) == []
    ensures EquivTo(Insert(t, x, le), y, le)
            == EquivTo(t, y, le) + (if Equiv(le, x, y) then [x] else [])
  {
    var p := FirstGreater(t, x, le);
    EquivToInsertParts(t, x, y, le);
    EquivToSplit(t, p, y, le);
    EquivToSingle(x, y, le);
    SwapEmpty(EquivTo(t[..p], y, le), EquivTo([x], y, le), EquivTo(t[p..], y, le));
  }

  lemma SwapEmpty<T>(a: seq<T>, e: seq<T>, h: seq<T>)
    requires e == [] || h == []
    ensures a + e + h == a + h + e
  {
  }

  /** Ties keep their input order: among elements with equal keys, the sort lists
      exactly the input's elements in the input's order. */
  lemma {:induction false} SortByStable<T(!new)>(s: seq<T>, y: T, le: (T, T) -> bool)
    requires TotalPreorder(le)
    ensures EquivTo(SortBy(s, le), y, le) == EquivTo(s, y, le)
    decreases |s|
  {
    if s != [] {
      var init := s[..|s| - 1];
      var x := s[|s| - 1];
      var t := SortBy(init, le);
      SortByStable(init, y, le);
      SortBySorted(init, le);
      if Equiv(le, x, y) {
        AfterInsertPoint(t, x, y, le);
      }
      InsertEquivTo(t, x, y, le);
    }
  }

  /** The three facts together: a sorted permutation in which ties keep input order. */
  lemma SortBySpec<T(!new)>(s: seq<T>, le: (T, T) -> bool)
    requires TotalPreorder(le)
    ensures multiset(SortBy(s, le)) == multiset(s)
    ensures Sorted(SortBy(s, le), le)
    ensures forall y :: EquivTo(SortBy(s, le), y, le) == EquivTo(s, y, le)
  {
    SortByPermutation(s, le);
    SortBySorted(s, le);
    forall y
      ensures EquivTo(SortBy(s, le), y, le) == EquivTo(s, y, le)
    {
      SortByStable(s, y, le);
    }
  }
}
