/** Order-preserving collection operations the pipeline performs with a `seen` set,
    a `defaultdict(list)` or a slice. Every definition peels the LAST element, so a
    loop that appends one element per step matches one unfolding. */
module Collections {

  function Id<T>(x: T): T { x }

  /** A non-empty sequence is its front followed by its last element. */
  lemma InitLast<T>(s: seq<T>)
    requires s != []
    ensures s == s[..|s| - 1] + [s[|s| - 1]]
  {
  }

  // ---------------------------------------------------------------- keys

  /** The set of keys of the elements of `s`. */
  function Keys<T, K(==)>(s: seq<T>, key: T -> K): set<K>
    decreases |s|
  {
    if s == [] then {} else Keys(s[..|s| - 1], key) + {key(s[|s| - 1])}
  }

  lemma {:induction false} KeysMember<T, K>(s: seq<T>, key: T -> K, k: K)
    ensures k in Keys(s, key) <==> exists i :: 0 <= i < |s| && key(s[i]) == k
    decreases |s|
  {
    if s != [] {
      var init := s[..|s| - 1];
      KeysMember(init, key, k);
      if exists i :: 0 <= i < |init| && key(init[i]) == k {
        var i :| 0 <= i < |init| && key(init[i]) == k;
        assert key(s[i]) == k;
      }
      if exists i :: 0 <= i < |s| && key(s[i]) == k {
        var i :| 0 <= i < |s| && key(s[i]) == k;
        if i < |init| {
          assert key(init[i]) == k;
        }
      }
    }
  }

  lemma KeysOfElement<T, K>(s: seq<T>, key: T -> K, i: int)
    requires 0 <= i < |s|
    ensures key(s[i]) in Keys(s, key)
  {
    KeysMember(s, key, key(s[i]));
  }

  /** No two elements of `s` share a key. */
  predicate DistinctKeys<T, K(==)>(s: seq<T>, key: T -> K) {
    forall i, j :: 0 <= i < j < |s| ==> key(s[i]) != key(s[j])
  }

  /** The index of the first element of `s` with key `k`, or `|s|` if there is none. */
  function FirstIndex<T, K(==)>(s: seq<T>, key: T -> K, k: K): (r: nat)
    ensures r <= |s|
    ensures r < |s| ==> key(s[r]) == k
    ensures forall j :: 0 <= j < r && j < |s| ==> key(s[j]) != k
    ensures r == |s| <==> k !in Keys(s, key)
    decreases |s|
  {
    if s == [] then 0
    else
      var init := s[..|s| - 1];
      var f := FirstIndex(init, key, k);
      if f < |init| then f
      else if key(s[|s| - 1]) == k then |s| - 1
      else |s|
  }

  // ---------------------------------------------------------------- first-seen dedup

  /** Keep only the first element seen for each key, in order: the `seen`-set loop. */
  function DedupBy<T, K(==)>(s: seq<T>, key: T -> K): seq<T>
    decreases |s|
  {
    if s == [] then []
    else
      var d := DedupBy(s[..|s| - 1], key);
      if key(s[|s| - 1]) in Keys(d, key) then d else d + [s[|s| - 1]]
  }

  /** `r` lists, for each of its elements, the FIRST element of `s` with that key,
      and in the order in which those first elements occur in `s`. */
  ghost predicate FirstSeenOrder<T, K>(s: seq<T>, key: T -> K, r: seq<T>) {
    && (forall j :: 0 <= j < |r| ==>
          FirstIndex(s, key, key(r[j])) < |s| && r[j] == s[FirstIndex(s, key, key(r[j]))])
    && (forall a, b :: 0 <= a < b < |r| ==>
          FirstIndex(s, key, key(r[a])) < FirstIndex(s, key, key(r[b])))
  }

  /** The dedup holds exactly the keys of the input, one element per key. */
  lemma {:induction false} DedupByKeys<T, K>(s: seq<T>, key: T -> K)
    ensures Keys(DedupBy(s, key), key) == Keys(s, key)
    ensures |DedupBy(s, key)| == |Keys(s, key)| <= |s|
    decreases |s|
  {
    if s != [] {
      var init := s[..|s| - 1];
      var d := DedupBy(init, key);
      DedupByKeys(init, key);
      if key(s[|s| - 1]) !in Keys(d, key) {
        var r := d + [s[|s| - 1]];
        assert r[..|r| - 1] == d;
      }
    }
  }

  /** No two elements of the dedup share a key. */
  lemma {:induction false} DedupByDistinct<T, K>(s: seq<T>, key: T -> K)
    ensures DistinctKeys(DedupBy(s, key), key)
    decreases |s|
  {
    if s != [] {
      var init := s[..|s| - 1];
      var d := DedupBy(init, key);
      DedupByDistinct(init, key);
      if key(s[|s| - 1]) !in Keys(d, key) {
        forall j | 0 <= j < |d|
          ensures key(d[j]) != key(s[|s| - 1])
        {
          KeysOfElement(d, key, j);
        }
      }
    }
  }

  /** A key first seen before the last element keeps its first index. */
  lemma FirstIndexSnoc<T, K>(s: seq<T>, key: T -> K, k: K)
    requires s != [] && FirstIndex(s[..|s| - 1], key, k) < |s| - 1
    ensures FirstIndex(s, key, k) == FirstIndex(s[..|s| - 1], key, k)
  {
  }

  /** The first-seen facts for the elements the dedup of the prefix already holds. */
  lemma DedupByFirstSeenOld<T, K>(s: seq<T>, key: T -> K)
    requires s != []
    requires FirstSeenOrder(s[..|s| - 1], key, DedupBy(s[..|s| - 1], key))
    ensures var init := s[..|s| - 1];
      FirstSeenOrder(s, key, DedupBy(init, key))
  {
    var init := s[..|s| - 1];
    var d := DedupBy(init, key);
    forall j | 0 <= j < |d|
      ensures FirstIndex(s, key, key(d[j])) == FirstIndex(init, key, key(d[j])) < |init|
      ensures d[j] == s[FirstIndex(s, key, key(d[j]))]
    {
      FirstIndexSnoc(s, key, key(d[j]));
    }
  }

  /** Appending an element with a new key keeps the first-seen order. */
  lemma DedupByFirstSeenNew<T, K>(s: seq<T>, key: T -> K, d: seq<T>)
    requires s != []
    requires FirstSeenOrder(s, key, d)
    requires forall j :: 0 <= j < |d| ==> FirstIndex(s, key, key(d[j])) < |s| - 1
    requires FirstIndex(s, key, key(s[|s| - 1])) == |s| - 1
    ensures FirstSeenOrder(s, key, d + [s[|s| - 1]])
  {
    var r := d + [s[|s| - 1]];
    forall a, b | 0 <= a < b < |r|
      ensures FirstIndex(s, key, key(r[a])) < FirstIndex(s, key, key(r[b]))
    {
      if b < |d| {
        assert r[a] == d[a] && r[b] == d[b];
      } else {
        assert r[a] == d[a];
      }
    }
    forall j | 0 <= j < |r|
      ensures FirstIndex(s, key, key(r[j])) < |s| && r[j] == s[FirstIndex(s, key, key(r[j]))]
    {
      if j < |d| {
        assert r[j] == d[j];
      }
    }
  }

  /** Each element of the dedup is the first input element with its key, and the
      dedup lists them in input order. */
  lemma {:induction false} DedupByFirstSeen<T, K>(s: seq<T>, key: T -> K)
    ensures FirstSeenOrder(s, key, DedupBy(s, key))
    decreases |s|
  {
    if s != [] {
      var init := s[..|s| - 1];
      var x := s[|s| - 1];
      var d := DedupBy(init, key);
      DedupByFirstSeen(init, key);
      DedupByKeys(init, key);
      DedupByFirstSeenOld(s, key);
      if key(x) !in Keys(d, key) {
        assert FirstIndex(s, key, key(x)) == |s| - 1;
        DedupByFirstSeenNew(s, key, d);
      }
    }
  }

  /** Every element kept by the dedup comes from the input. */
  lemma DedupByElements<T, K>(s: seq<T>, key: T -> K, j: int)
    requires 0 <= j < |DedupBy(s, key)|
    ensures DedupBy(s, key)[j] in s
  {
    DedupByFirstSeen(s, key);
  }

  /** Distinct values in first-seen order (a `seen` set over plain values). */
  function Distinct<T(==)>(s: seq<T>): seq<T> {
    DedupBy(s, Id)
  }

  lemma {:induction false} DistinctSpec<T>(s: seq<T>)
    ensures forall x :: x in s <==> x in Distinct(s)
    ensures forall i, j :: 0 <= i < j < |Distinct(s)| ==> Distinct(s)[i] != Distinct(s)[j]
    ensures forall a, b :: 0 <= a < b < |Distinct(s)| ==>
              FirstIndex(s, Id, Distinct(s)[a]) < FirstIndex(s, Id, Distinct(s)[b])
  {
    DedupByDistinct(s, Id);
    DedupByFirstSeen(s, Id);
    DedupByKeys(s, Id);
    var d := Distinct(s);
    forall x
      ensures x in s <==> x in d
    {
      KeysMember(s, Id, x);
      KeysMember(d, Id, x);
      if x in s {
        var i :| 0 <= i < |s| && s[i] == x;
        assert Id(s[i]) == x;
      }
      if x in d {
        var i :| 0 <= i < |d| && d[i] == x;
        assert Id(d[i]) == x;
      }
    }
  }

  // ---------------------------------------------------------------- grouping

  /** The values of the elements with key `k`, in order. */
  function Select<T, K(==), V>(s: seq<T>, key: T -> K, val: T -> V, k: K): seq<V>
    decreases |s|
  {
    if s == [] then []
    else
      Select(s[..|s| - 1], key, val, k) + (if key(s[|s| - 1]) == k then [val(s[|s| - 1])] else [])
  }

  /** `defaultdict(list)` filled by appending `val(x)` under `key(x)` for each `x` in order. */
  function GroupBy<T, K(==), V>(s: seq<T>, key: T -> K, val: T -> V): map<K, seq<V>>
    decreases |s|
  {
    if s == [] then map[]
    else
      var g := GroupBy(s[..|s| - 1], key, val);
      var k := key(s[|s| - 1]);
      g[k := (if k in g then g[k] else []) + [val(s[|s| - 1])]]
  }

  /** A group exists exactly for the keys that occur, and holds every value filed under
      that key, undeduplicated and in input order. */
  lemma {:induction false} GroupBySpec<T, K, V>(s: seq<T>, key: T -> K, val: T -> V)
    ensures GroupBy(s, key, val).Keys == Keys(s, key)
    ensures forall k :: k in GroupBy(s, key, val) ==>
              GroupBy(s, key, val)[k] == Select(s, key, val, k) != []
    decreases |s|
  {
    if s != [] {
      var init := s[..|s| - 1];
      var g := GroupBy(init, key, val);
      var kx := key(s[|s| - 1]);
      GroupBySpec(init, key, val);
      if kx !in g {
        SelectEmpty(init, key, val, kx);
      }
      forall k | k in GroupBy(s, key, val)
        ensures GroupBy(s, key, val)[k] == Select(s, key, val, k) != []
      {
        if k != kx {
          assert Select(s, key, val, k) == Select(init, key, val, k);
        }
      }
    }
  }

  lemma {:induction false} SelectEmpty<T, K, V>(s: seq<T>, key: T -> K, val: T -> V, k: K)
    requires k !in Keys(s, key)
    ensures Select(s, key, val, k) == []
    decreases |s|
  {
    if s != [] {
      SelectEmpty(s[..|s| - 1], key, val, k);
    }
  }

  /** A value is in a group exactly when some element with the group's key has it. */
  lemma {:induction false} SelectMember<T, K, V>(s: seq<T>, key: T -> K, val: T -> V, k: K, v: V)
    ensures v in Select(s, key, val, k) <==> exists i :: 0 <= i < |s| && key(s[i]) == k && val(s[i]) == v
    decreases |s|
  {
    if s != [] {
      var init := s[..|s| - 1];
      SelectMember(init, key, val, k, v);
      if exists i :: 0 <= i < |init| && key(init[i]) == k && val(init[i]) == v {
        var i :| 0 <= i < |init| && key(init[i]) == k && val(init[i]) == v;
        assert s[i] == init[i];
      }
      if exists i :: 0 <= i < |s| && key(s[i]) == k && val(s[i]) == v {
        var i :| 0 <= i < |s| && key(s[i]) == k && val(s[i]) == v;
        if i < |init| {
          assert init[i] == s[i];
        }
      }
    }
  }

  /** The first value of a group is that of the first element with the group's key. */
  lemma {:induction false} SelectHead<T, K, V>(s: seq<T>, key: T -> K, val: T -> V, k: K)
    requires k in Keys(s, key)
    ensures FirstIndex(s, key, k) < |s|
    ensures Select(s, key, val, k) != [] && Select(s, key, val, k)[0] == val(s[FirstIndex(s, key, k)])
    decreases |s|
  {
    var init := s[..|s| - 1];
    if k in Keys(init, key) {
      SelectHead(init, key, val, k);
    } else {
      SelectEmpty(init, key, val, k);
    }
  }

  /** The keys of the elements, in order. */
  function KeySeq<T, K(==)>(s: seq<T>, key: T -> K): (r: seq<K>)
    ensures |r| == |s| && forall i :: 0 <= i < |s| ==> r[i] == key(s[i])
  {
    seq(|s|, i requires 0 <= i < |s| => key(s[i]))
  }

  /** The sum of the group sizes, taken over `order`. */
  function TotalSize<K(==), V>(order: seq<K>, g: map<K, seq<V>>): nat
    decreases |order|
  {
    if order == [] then 0
    else TotalSize(order[..|order| - 1], g) + (if order[|order| - 1] in g then |g[order[|order| - 1]]| else 0)
  }

  lemma {:induction false} TotalSizeOther<K, V>(order: seq<K>, g: map<K, seq<V>>, k: K, v: seq<V>)
    requires k !in order
    ensures TotalSize(order, g[k := v]) == TotalSize(order, g)
    decreases |order|
  {
    if order != [] {
      TotalSizeOther(order[..|order| - 1], g, k, v);
    }
  }

  lemma {:induction false} TotalSizeGrow<K, V>(order: seq<K>, g: map<K, seq<V>>, k: K, x: V)
    requires k in g
    requires forall i, j :: 0 <= i < j < |order| ==> order[i] != order[j]
    requires k in order
    ensures TotalSize(order, g[k := g[k] + [x]]) == TotalSize(order, g) + 1
    decreases |order|
  {
    var init := order[..|order| - 1];
    if order[|order| - 1] == k {
      assert k !in init;
      TotalSizeOther(init, g, k, g[k] + [x]);
    } else {
      TotalSizeGrow(init, g, k, x);
    }
  }

  /** Summed over the keys in first-seen order, the group sizes add up to the input length. */
  lemma {:induction false} GroupSizesSum<T, K, V>(s: seq<T>, key: T -> K, val: T -> V)
    ensures TotalSize(Distinct(KeySeq(s, key)), GroupBy(s, key, val)) == |s|
    decreases |s|
  {
    if s != [] {
      var init := s[..|s| - 1];
      var x := s[|s| - 1];
      var k := key(x);
      var ks := KeySeq(s, key);
      var ks0 := KeySeq(init, key);
      assert ks[..|ks| - 1] == ks0 && ks[|ks| - 1] == k;
      var g := GroupBy(init, key, val);
      var order := Distinct(ks0);
      GroupSizesSum(init, key, val);
      GroupBySpec(init, key, val);
      DistinctSpec(ks0);
      KeysIdOfKeySeq(init, key, k);
      KeysIdOfDistinct(ks0, k);
      assert Distinct(ks) == DedupBy(ks, Id);
      if k in order {
        assert Distinct(ks) == order;
        TotalSizeGrow(order, g, k, val(x));
      } else {
        assert Distinct(ks) == order + [k];
        assert k !in ks0 && k !in g;
        var empty: seq<V> := [];
        assert empty + [val(x)] == [val(x)];
        assert GroupBy(s, key, val) == g[k := empty + [val(x)]];
        TotalSizeOther(order, g, k, [val(x)]);
        var o2 := order + [k];
        assert o2[..|o2| - 1] == order;
        assert TotalSize(o2, g[k := [val(x)]]) == TotalSize(order, g[k := [val(x)]]) + 1;
      }
    }
  }

  lemma KeysIdOfKeySeq<T, K>(s: seq<T>, key: T -> K, k: K)
    ensures k in Keys(s, key) <==> k in KeySeq(s, key)
  {
    KeysMember(s, key, k);
    var ks := KeySeq(s, key);
    if k in ks {
      var i :| 0 <= i < |ks| && ks[i] == k;
      assert key(s[i]) == k;
    }
  }

  lemma KeysIdOfDistinct<K>(ks: seq<K>, k: K)
    ensures k in Keys(Distinct(ks), Id) <==> k in Distinct(ks)
    ensures k in Keys(ks, Id) <==> k in ks
  {
    KeysMember(Distinct(ks), Id, k);
    KeysMember(ks, Id, k);
    var d := Distinct(ks);
    if k in d {
      var i :| 0 <= i < |d| && d[i] == k;
      assert Id(d[i]) == k;
    }
    if k in ks {
      var i :| 0 <= i < |ks| && ks[i] == k;
      assert Id(ks[i]) == k;
    }
  }

  // ---------------------------------------------------------------- flat map

  /** The pieces `f(x)` of all elements, one after another in order. */
  function FlatMap<T, U>(s: seq<T>, f: T -> seq<U>): seq<U>
    decreases |s|
  {
    if s == [] then [] else FlatMap(s[..|s| - 1], f) + f(s[|s| - 1])
  }

  lemma {:induction false} FlatMapAppend<T, U>(a: seq<T>, b: seq<T>, f: T -> seq<U>)
    ensures FlatMap(a + b, f) == FlatMap(a, f) + FlatMap(b, f)
    decreases |b|
  {
    if b == [] {
      assert a + b == a;
    } else {
      var b0 := b[..|b| - 1];
      assert (a + b)[..|a + b| - 1] == a + b0;
      assert (a + b)[|a + b| - 1] == b[|b| - 1];
      FlatMapAppend(a, b0, f);
    }
  }

  lemma FlatMapSnoc<T, U>(s: seq<T>, f: T -> seq<U>, n: nat)
    requires n < |s|
    ensures FlatMap(s[..n + 1], f) == FlatMap(s[..n], f) + f(s[n])
  {
    assert s[..n + 1][..n] == s[..n];
  }

  /** Appending the next piece to a prefix-headed flat map extends it by one element. */
  lemma FlatMapExtend<T, U>(h: seq<U>, s: seq<T>, f: T -> seq<U>, n: nat)
    requires n < |s|
    ensures h + FlatMap(s[..n + 1], f) == h + FlatMap(s[..n], f) + f(s[n])
  {
    FlatMapSnoc(s, f, n);
  }

  /** When every piece is one element long, the flat map lists those elements in order. */
  lemma {:induction false} FlatMapSingles<T, U>(s: seq<T>, f: T -> seq<U>)
    requires forall x :: |f(x)| == 1
    ensures |FlatMap(s, f)| == |s|
    ensures forall i :: 0 <= i < |s| ==> FlatMap(s, f)[i] == f(s[i])[0]
    decreases |s|
  {
    if s != [] {
      var init := s[..|s| - 1];
      FlatMapSingles(init, f);
      forall i | 0 <= i < |init|
        ensures FlatMap(s, f)[i] == f(s[i])[0]
      {
        assert s[i] == init[i];
      }
    }
  }

  /** `f(1) + f(2) + ... + f(n)`: the pieces of numbered rounds, in round order. */
  function Numbered<T>(n: nat, f: int -> seq<T>): seq<T>
    decreases n
  {
    if n == 0 then [] else Numbered(n - 1, f) + f(n)
  }

  lemma {:induction false} NumberedPrefix<T>(n: nat, m: nat, f: int -> seq<T>)
    requires m <= n
    ensures Numbered(m, f) <= Numbered(n, f)
    decreases n
  {
    if m < n {
      NumberedPrefix(n - 1, m, f);
    }
  }

  /** Piece `idx` starts right after the pieces before it. */
  lemma NumberedAt<T>(n: nat, f: int -> seq<T>, idx: int, k: int)
    requires 1 <= idx <= n && 0 <= k < |f(idx)|
    ensures |Numbered(idx - 1, f)| + k < |Numbered(n, f)|
    ensures Numbered(n, f)[|Numbered(idx - 1, f)| + k] == f(idx)[k]
  {
    NumberedPrefix(n, idx, f);
  }

  lemma {:induction false} NumberedLength<T>(n: nat, f: int -> seq<T>, w: nat)
    requires forall i :: 1 <= i <= n ==> |f(i)| == w
    ensures |Numbered(n, f)| == w * n
    decreases n
  {
    if n > 0 {
      NumberedLength(n - 1, f, w);
      assert w * n == w * (n - 1) + w;
    }
  }

  // ---------------------------------------------------------------- one more element

  /** The step a loop takes when it processes one more element, for each definition. */
  lemma KeysSnoc<T, K>(s: seq<T>, key: T -> K, x: T)
    ensures Keys(s + [x], key) == Keys(s, key) + {key(x)}
  {
    assert (s + [x])[..|s|] == s;
  }

  lemma DedupBySnoc<T, K>(s: seq<T>, key: T -> K, x: T)
    ensures DedupBy(s + [x], key)
            == if key(x) in Keys(s, key) then DedupBy(s, key) else DedupBy(s, key) + [x]
  {
    assert (s + [x])[..|s|] == s;
    DedupByKeys(s, key);
  }

  lemma GroupBySnoc<T, K, V>(s: seq<T>, key: T -> K, val: T -> V, x: T)
    ensures var g := GroupBy(s, key, val);
      GroupBy(s + [x], key, val) == g[key(x) := (if key(x) in g then g[key(x)] else []) + [val(x)]]
  {
    assert (s + [x])[..|s|] == s;
  }

  lemma KeySeqSnoc<T, K>(s: seq<T>, key: T -> K, x: T)
    ensures KeySeq(s + [x], key) == KeySeq(s, key) + [key(x)]
  {
  }

  lemma DistinctSnoc<T>(s: seq<T>, x: T)
    ensures Distinct(s + [x]) == if x in s then Distinct(s) else Distinct(s) + [x]
  {
    DedupBySnoc(s, Id, x);
    KeysIdOfDistinct(s, x);
  }

  /** The first-seen representatives are the heads of the groups, listed in the order
      the keys were first met. */
  lemma {:induction false} DedupByHeads<T, K, V>(s: seq<T>, key: T -> K, val: T -> V)
    ensures |DedupBy(s, key)| == |Distinct(KeySeq(s, key))|
    ensures forall i :: 0 <= i < |DedupBy(s, key)| ==>
              && key(DedupBy(s, key)[i]) == Distinct(KeySeq(s, key))[i]
              && Distinct(KeySeq(s, key))[i] in GroupBy(s, key, val)
              && GroupBy(s, key, val)[Distinct(KeySeq(s, key))[i]] != []
              && GroupBy(s, key, val)[Distinct(KeySeq(s, key))[i]][0] == val(DedupBy(s, key)[i])
    decreases |s|
  {
    if s != [] {
      var init, x := s[..|s| - 1], s[|s| - 1];
      DedupByHeads(init, key, val);
      assert s == init + [x];
      var d, ks, g := DedupBy(init, key), KeySeq(init, key), GroupBy(init, key, val);
      var order := Distinct(ks);
      DedupBySnoc(init, key, x);
      GroupBySnoc(init, key, val, x);
      KeySeqSnoc(init, key, x);
      DistinctSnoc(ks, key(x));
      KeysIdOfKeySeq(init, key, key(x));
      GroupBySpec(init, key, val);
      DistinctSpec(ks);
      if key(x) !in ks {
        var empty: seq<V> := [];
        assert GroupBy(s, key, val) == g[key(x) := empty + [val(x)]];
        assert DedupBy(s, key) == d + [x];
        assert Distinct(KeySeq(s, key)) == order + [key(x)];
      } else {
        assert GroupBy(s, key, val) == g[key(x) := g[key(x)] + [val(x)]];
        assert DedupBy(s, key) == d;
        assert Distinct(KeySeq(s, key)) == order;
      }
    }
  }

  // ---------------------------------------------------------------- mapping

  /** `[f(x) for x in s]`. */
  function Map<T, U>(s: seq<T>, f: T -> U): (r: seq<U>)
    ensures |r| == |s|
    ensures forall i :: 0 <= i < |s| ==> r[i] == f(s[i])
    decreases |s|
  {
    if s == [] then [] else Map(s[..|s| - 1], f) + [f(s[|s| - 1])]
  }

  lemma MapSnoc<T, U>(s: seq<T>, f: T -> U, n: nat)
    requires n < |s|
    ensures Map(s[..n + 1], f) == Map(s[..n], f) + [f(s[n])]
  {
    assert s[..n + 1][..n] == s[..n];
  }

  // ---------------------------------------------------------------- filtering

  /** `[x for x in s if p(x)]`. */
  function Filter<T>(s: seq<T>, p: T -> bool): (r: seq<T>)
    ensures |r| <= |s|
    decreases |s|
  {
    if s == [] then [] else Filter(s[..|s| - 1], p) + (if p(s[|s| - 1]) then [s[|s| - 1]] else [])
  }

  /** The filter keeps every copy of each element that passes and drops the rest. */
  lemma {:induction false} FilterSpec<T>(s: seq<T>, p: T -> bool)
    ensures forall x :: multiset(Filter(s, p))[x] == if p(x) then multiset(s)[x] else 0
    ensures forall i :: 0 <= i < |Filter(s, p)| ==> p(Filter(s, p)[i]) && Filter(s, p)[i] in s
    decreases |s|
  {
    if s != [] {
      var init, x := s[..|s| - 1], s[|s| - 1];
      FilterSpec(init, p);
      assert s == init + [x];
    }
  }

  /** A list without repeats counts each element at most once. */
  lemma {:induction false} NoRepeatsCount<T>(s: seq<T>, x: T)
    requires forall i, j :: 0 <= i < j < |s| ==> s[i] != s[j]
    ensures multiset(s)[x] <= 1
    decreases |s|
  {
    if s != [] {
      var init := s[..|s| - 1];
      NoRepeatsCount(init, x);
      assert s == init + [s[|s| - 1]];
      if s[|s| - 1] == x {
        forall i | 0 <= i < |init|
          ensures init[i] != x
        {
          assert init[i] == s[i];
        }
      }
    }
  }

  lemma RepeatCount<T>(a: seq<T>, i: int, j: int)
    requires 0 <= i < j < |a| && a[i] == a[j]
    ensures multiset(a)[a[i]] >= 2
  {
    assert a == a[..j] + [a[j]] + a[j + 1..];
    assert a[i] in a[..j];
  }

  /** A permutation of a list without repeats has none either. */
  lemma NoRepeatsPermutation<T>(a: seq<T>, b: seq<T>)
    requires multiset(a) == multiset(b)
    requires forall i, j :: 0 <= i < j < |b| ==> b[i] != b[j]
    ensures forall i, j :: 0 <= i < j < |a| ==> a[i] != a[j]
  {
    forall i, j | 0 <= i < j < |a|
      ensures a[i] != a[j]
    {
      if a[i] == a[j] {
        RepeatCount(a, i, j);
        NoRepeatsCount(b, a[i]);
      }
    }
  }

  // ---------------------------------------------------------------- slicing

  /** Python's `s[:n]`, where a negative `n` counts from the end. */
  function SliceTo<T>(s: seq<T>, n: int): (r: seq<T>)
    ensures |r| <= |s| && r == s[..|r|]
    ensures n >= 0 ==> |r| == (if n < |s| then n else |s|)
    ensures n < 0 ==> |r| == (if |s| + n > 0 then |s| + n else 0)
  {
    if n >= 0 then s[..if n < |s| then n else |s|]
    else s[..if |s| + n > 0 then |s| + n else 0]
  }
}
