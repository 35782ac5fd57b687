/** The table operations the scripts take from pandas, on sequences of rows:
    `sort_values` (specified as sorted and a permutation; pandas' default sort is not stable,
    so the order of rows with equal keys is left open), boolean-mask selection, and
    `drop_duplicates` on one key (the first row of each key is kept). */
module Tables {
  import opened Common
  import opened Sums

  ghost predicate TotalPreorder<T(!new)>(leq: (T, T) -> bool)
  {
    && (forall a, b :: leq(a, b) || leq(b, a))
    && (forall a, b, c :: leq(a, b) && leq(b, c) ==> leq(a, c))
  }

  ghost predicate SortedBy<T>(s: seq<T>, leq: (T, T) -> bool)
  {
    forall i, j :: 0 <= i < j < |s| ==> leq(s[i], s[j])
  }

  function Insert<T(!new)>(x: T, s: seq<T>, leq: (T, T) -> bool): (r: seq<T>)
    requires TotalPreorder(leq) && SortedBy(s, leq)
    ensures |r| == |s| + 1 && multiset(r) == multiset(s) + multiset{x}
    ensures forall k :: 0 <= k < |r| ==> r[k] == x || r[k] in s
    ensures SortedBy(r, leq)
  {
    if s == [] then [x]
    else if leq(x, s[0]) then [x] + s
    else
      var t := Insert(x, s[1..], leq);
      InsertBehind(x, s, t, leq);
      [s[0]] + t
  }

  /** The recursive case of `Insert`: `x` goes after the head of `s`. */
  lemma InsertBehind<T(!new)>(x: T, s: seq<T>, t: seq<T>, leq: (T, T) -> bool)
    requires TotalPreorder(leq) && SortedBy(s, leq) && s != [] && !leq(x, s[0])
    requires |t| == |s| && multiset(t) == multiset(s[1..]) + multiset{x}
    requires forall k :: 0 <= k < |t| ==> t[k] == x || t[k] in s[1..]
    requires SortedBy(t, leq)
    ensures multiset([s[0]] + t) == multiset(s) + multiset{x}
    ensures forall k :: 0 <= k < |t| + 1 ==> ([s[0]] + t)[k] == x || ([s[0]] + t)[k] in s
    ensures SortedBy([s[0]] + t, leq)
  {
    assert s == [s[0]] + s[1..];
    assert forall k :: 0 <= k < |t| ==> leq(s[0], t[k]);
  }

  /** The rows of `s` ordered by `leq` (insertion sort). */
  function SortBy<T(!new)>(s: seq<T>, leq: (T, T) -> bool): (r: seq<T>)
    requires TotalPreorder(leq)
    ensures |r| == |s| && multiset(r) == multiset(s) && SortedBy(r, leq)
  {
    if s == [] then []
    else
      assert s == [s[0]] + s[1..];
      Insert(s[0], SortBy(s[1..], leq), leq)
  }

  lemma {:induction false} SumOfInsert<T(!new)>(x: T, s: seq<T>, leq: (T, T) -> bool, f: T -> real)
    requires TotalPreorder(leq) && SortedBy(s, leq)
    ensures SumOf(Insert(x, s, leq), f) == f(x) + SumOf(s, f)
  {
    if s != [] && !leq(x, s[0]) {
      SumOfInsert(x, s[1..], leq, f);
    }
  }

  /** Sorting does not change any sum over the rows. */
  lemma {:induction false} SumOfSortBy<T(!new)>(s: seq<T>, leq: (T, T) -> bool, f: T -> real)
    requires TotalPreorder(leq)
    ensures SumOf(SortBy(s, leq), f) == SumOf(s, f)
  {
    if s != [] {
      SumOfSortBy(s[1..], leq, f);
      SumOfInsert(s[0], SortBy(s[1..], leq), leq, f);
    }
  }

  /** The rows selected by a boolean mask, in their original order. */
  function Select<T>(s: seq<T>, p: T -> bool): (r: seq<T>)
    ensures |r| <= |s|
    ensures forall k :: 0 <= k < |r| ==> p(r[k]) && r[k] in s
    ensures forall k :: 0 <= k < |s| && p(s[k]) ==> s[k] in r
  {
    if s == [] then []
    else if p(s[0]) then [s[0]] + Select(s[1..], p)
    else Select(s[1..], p)
  }

  lemma {:induction false} SelectAppend<T>(a: seq<T>, b: seq<T>, p: T -> bool)
    ensures Select(a + b, p) == Select(a, p) + Select(b, p)
  {
    if a == [] {
      assert a + b == b;
    } else {
      assert (a + b)[1..] == a[1..] + b;
      SelectAppend(a[1..], b, p);
    }
  }

  /** The first row of `s` whose key is `k`. */
  function FirstWithKey<T, K(==)>(s: seq<T>, key: T -> K, k: K): (r: Option<T>)
    ensures r.Some? ==> r.value in s && key(r.value) == k
    ensures r.None? <==> forall i :: 0 <= i < |s| ==> key(s[i]) != k
  {
    if s == [] then None
    else if key(s[0]) == k then Some(s[0])
    else FirstWithKey(s[1..], key, k)
  }

  function KeysOf<T, K(==)>(s: seq<T>, key: T -> K): set<K>
  {
    set i | 0 <= i < |s| :: key(s[i])
  }

  /** `drop_duplicates(key)`: one row per key, the first one, in order of first appearance. */
  function DedupBy<T, K(==)>(s: seq<T>, key: T -> K): (r: seq<T>)
    ensures |r| <= |s|
    ensures forall i, j :: 0 <= i < j < |r| ==> key(r[i]) != key(r[j])
    ensures KeysOf(r, key) == KeysOf(s, key)
    ensures forall j :: 0 <= j < |r| ==> FirstWithKey(s, key, key(r[j])) == Some(r[j])
    decreases |s|
  {
    if s == [] then []
    else
      var k := key(s[0]);
      var rest := Select(s[1..], x => key(x) != k);
      var t := DedupBy(rest, key);
      DedupFresh(s, key, rest, t);
      DedupKeys(s, key, rest, t);
      DedupCons(s, key, t);
      [s[0]] + t
  }

  /** Putting the first row in front of rows of other keys, each the first of its key. */
  lemma DedupCons<T, K>(s: seq<T>, key: T -> K, t: seq<T>)
    requires s != []
    requires forall i, j :: 0 <= i < j < |t| ==> key(t[i]) != key(t[j])
    requires forall j :: 0 <= j < |t| ==> key(t[j]) != key(s[0]) && FirstWithKey(s, key, key(t[j])) == Some(t[j])
    ensures forall i, j :: 0 <= i < j < |[s[0]] + t| ==> key(([s[0]] + t)[i]) != key(([s[0]] + t)[j])
    ensures forall j :: 0 <= j < |[s[0]] + t| ==> FirstWithKey(s, key, key(([s[0]] + t)[j])) == Some(([s[0]] + t)[j])
  {
    var r := [s[0]] + t;
    forall j | 1 <= j < |r| ensures r[j] == t[j - 1] {
    }
  }

  /** The rows kept after the first carry other keys, and are still the first of their key. */
  lemma DedupFresh<T, K>(s: seq<T>, key: T -> K, rest: seq<T>, t: seq<T>)
    requires s != [] && rest == Select(s[1..], x => key(x) != key(s[0]))
    requires KeysOf(t, key) == KeysOf(rest, key)
    requires forall j :: 0 <= j < |t| ==> FirstWithKey(rest, key, key(t[j])) == Some(t[j])
    ensures forall j :: 0 <= j < |t| ==> key(t[j]) != key(s[0]) && FirstWithKey(s, key, key(t[j])) == Some(t[j])
  {
    var k := key(s[0]);
    SelectKeys(s[1..], key, k);
    forall j | 0 <= j < |t| ensures key(t[j]) != k && FirstWithKey(s, key, key(t[j])) == Some(t[j]) {
      assert key(t[j]) in KeysOf(t, key);
      SelectKeepsFirst(s[1..], key, k, key(t[j]));
    }
  }

  lemma DedupKeys<T, K>(s: seq<T>, key: T -> K, rest: seq<T>, t: seq<T>)
    requires s != [] && rest == Select(s[1..], x => key(x) != key(s[0]))
    requires KeysOf(t, key) == KeysOf(rest, key)
    ensures KeysOf([s[0]] + t, key) == KeysOf(s, key)
  {
    SelectKeys(s[1..], key, key(s[0]));
    KeysOfCons(s[0], t, key);
    assert s == [s[0]] + s[1..];
    KeysOfCons(s[0], s[1..], key);
  }

  lemma KeysOfCons<T, K>(a: T, t: seq<T>, key: T -> K)
    ensures KeysOf([a] + t, key) == {key(a)} + KeysOf(t, key)
  {
    var r := [a] + t;
    forall x | x in KeysOf(r, key) ensures x in {key(a)} + KeysOf(t, key) {
      var i :| 0 <= i < |r| && key(r[i]) == x;
      if i > 0 { assert r[i] == t[i - 1]; }
    }
    forall x | x in KeysOf(t, key) ensures x in KeysOf(r, key) {
      var i :| 0 <= i < |t| && key(t[i]) == x;
      assert r[i + 1] == t[i];
    }
    assert key(r[0]) in KeysOf(r, key);
  }

  lemma {:induction false} SelectKeys<T, K>(s: seq<T>, key: T -> K, k: K)
    ensures KeysOf(Select(s, x => key(x) != k), key) == KeysOf(s, key) - {k}
  {
    if s == [] {
      assert KeysOf(s, key) == {};
    } else {
      SelectKeys(s[1..], key, k);
      assert s == [s[0]] + s[1..];
      KeysOfCons(s[0], s[1..], key);
      if key(s[0]) != k {
        KeysOfCons(s[0], Select(s[1..], x => key(x) != k), key);
      }
    }
  }

  /** Removing the rows of one key does not move the first row of another key. */
  lemma {:induction false} SelectKeepsFirst<T, K>(s: seq<T>, key: T -> K, k: K, k': K)
    requires k != k'
    ensures FirstWithKey(Select(s, x => key(x) != k), key, k') == FirstWithKey(s, key, k')
  {
    if s != [] {
      SelectKeepsFirst(s[1..], key, k, k');
    }
  }

  /** A permutation of a sequence without repetitions has none and holds the same values. */
  lemma PermutationKeepsDistinct<T>(s: seq<T>, r: seq<T>)
    requires forall i, j :: 0 <= i < j < |s| ==> s[i] != s[j]
    requires multiset(r) == multiset(s)
    ensures forall i, j :: 0 <= i < j < |r| ==> r[i] != r[j]
    ensures forall c :: c in r <==> c in s
  {
    forall c ensures c in r <==> c in s {
      assert c in r <==> c in multiset(r);
      assert c in s <==> c in multiset(s);
    }
    forall i, j | 0 <= i < j < |r| ensures r[i] != r[j] {
      if r[i] == r[j] {
        assert multiset(r)[r[i]] >= 2 by {
          assert r == r[..i] + [r[i]] + r[i + 1..j] + [r[j]] + r[j + 1..];
        }
        DistinctCount(s, r[i]);
        assert false;
      }
    }
  }

  /** A sequence without repetitions holds each value at most once. */
  lemma {:induction false} DistinctCount<T>(s: seq<T>, c: T)
    requires forall i, j :: 0 <= i < j < |s| ==> s[i] != s[j]
    ensures multiset(s)[c] <= 1
  {
    if s != [] {
      DistinctCount(s[1..], c);
      assert s == [s[0]] + s[1..];
      if s[0] == c {
        assert c !in s[1..];
      }
    }
  }

  /** Python's string order: lexicographic by code point, a proper prefix first. */
  predicate LexLeq(a: string, b: string)
  {
    if a == [] then true
    else if b == [] then false
    else if a[0] != b[0] then a[0] < b[0]
    else LexLeq(a[1..], b[1..])
  }

  lemma {:induction false} LexLeqTotal(a: string, b: string)
    ensures LexLeq(a, b) || LexLeq(b, a)
  {
    if a != [] && b != [] && a[0] == b[0] {
      LexLeqTotal(a[1..], b[1..]);
    }
  }

  lemma {:induction false} LexLeqTransitive(a: string, b: string, c: string)
    requires LexLeq(a, b) && LexLeq(b, c)
    ensures LexLeq(a, c)
  {
    if a != [] && b != [] && c != [] && a[0] == b[0] && b[0] == c[0] {
      LexLeqTransitive(a[1..], b[1..], c[1..]);
    }
  }

  /** Two strings each at most the other are equal. */
  lemma {:induction false} LexLeqAntisymmetric(a: string, b: string)
    requires LexLeq(a, b) && LexLeq(b, a)
    ensures a == b
  {
    if a != [] && b != [] {
      LexLeqAntisymmetric(a[1..], b[1..]);
      assert a == [a[0]] + a[1..] && b == [b[0]] + b[1..];
    }
  }

  lemma LexLeqTotalPreorder()
    ensures TotalPreorder(LexLeq)
  {
    forall a, b ensures LexLeq(a, b) || LexLeq(b, a) {
      LexLeqTotal(a, b);
    }
    forall a, b, c | LexLeq(a, b) && LexLeq(b, c) ensures LexLeq(a, c) {
      LexLeqTransitive(a, b, c);
    }
  }
}
