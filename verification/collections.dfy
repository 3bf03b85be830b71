/**
 * The collection idioms the core uses: an insertion-ordered set
 * (ordered_set.OrderedSet, which keeps the first appearance of each element),
 * sorted() applied to a set of strings, and chunks() of lib/util.py.
 */
module Collections {
  import opened Text

  predicate Distinct<T(==)>(s: seq<T>) {
    forall i, j | 0 <= i < j < |s| :: s[i] != s[j]
  }

  /** The position of the first appearance of x in s. */
  function FirstIndex<T(==)>(s: seq<T>, x: T): (i: nat)
    requires x in s
    ensures i < |s| && s[i] == x
    ensures forall j | 0 <= j < i :: s[j] != x
  {
    if s[0] == x then 0 else 1 + FirstIndex(s[1..], x)
  }

  /** list(OrderedSet(s)): each element once, at the place of its first appearance. */
  function Dedupe<T(==)>(s: seq<T>): (r: seq<T>)
    ensures Distinct(r)
    ensures forall i | 0 <= i < |r| :: r[i] in s
    ensures forall i | 0 <= i < |s| :: s[i] in r
    ensures |r| <= |s|
  {
    if s == [] then []
    else
      var d := Dedupe(s[..|s| - 1]);
      var x := s[|s| - 1];
      assert forall i | 0 <= i < |s| - 1 :: s[i] == s[..|s| - 1][i];
      if x in d then d else d + [x]
  }

  /** Dedupe keeps elements in the order of their first appearance in the input. */
  lemma {:induction false} DedupeKeepsFirstAppearanceOrder<T>(s: seq<T>)
    ensures forall i, j | 0 <= i < j < |Dedupe(s)| ::
      FirstIndex(s, Dedupe(s)[i]) < FirstIndex(s, Dedupe(s)[j])
  {
    if s != [] {
      var p := s[..|s| - 1];
      var x := s[|s| - 1];
      DedupeKeepsFirstAppearanceOrder(p);
      var d := Dedupe(p);
      var r := Dedupe(s);
      assert s == p + [x];
      assert r == if x in d then d else d + [x];
      forall i, j | 0 <= i < j < |r| ensures FirstIndex(s, r[i]) < FirstIndex(s, r[j]) {
        assert r[i] == d[i];
        FirstIndexPrefix(p, x, d[i]);
        if j < |d| {
          assert r[j] == d[j];
          FirstIndexPrefix(p, x, d[j]);
        } else {
          assert r[j] == x && x !in p;
          assert s[|p|] == x;
        }
      }
    }
  }

  lemma FirstIndexPrefix<T>(p: seq<T>, x: T, y: T)
    requires y in p
    ensures FirstIndex(p + [x], y) == FirstIndex(p, y)
  {
    var i := FirstIndex(p, y);
    var k := FirstIndex(p + [x], y);
    assert (p + [x])[i] == y;
    assert k <= i;
    assert p[k] == (p + [x])[k];
  }

  /** A distinct sequence is its own Dedupe. */
  lemma {:induction false} DedupeOfDistinct<T>(s: seq<T>)
    requires Distinct(s)
    ensures Dedupe(s) == s
  {
    if s != [] {
      var p := s[..|s| - 1];
      DedupeOfDistinct(p);
      assert s[|s| - 1] !in p;
      assert p + [s[|s| - 1]] == s;
    }
  }

  /** The sequence strictly increases in Python's string order. */
  predicate StrictlySorted(r: seq<string>) {
    forall i, j | 0 <= i < j < |r| :: StrLess(r[i], r[j])
  }

  predicate IsLeast(m: string, s: set<string>) {
    m in s && forall x | x in s :: x == m || StrLess(m, x)
  }

  lemma {:induction false} LeastExists(s: set<string>)
    requires s != {}
    ensures exists m :: IsLeast(m, s)
    decreases |s|
  {
    var y :| y in s;
    if s - {y} == {} {
      assert s == {y};
      assert IsLeast(y, s);
    } else {
      LeastExists(s - {y});
      var m :| IsLeast(m, s - {y});
      StrLessTotal(m, y);
      if StrLess(m, y) {
        assert IsLeast(m, s);
      } else {
        forall x | x in s ensures x == y || StrLess(y, x) {
          if x != y && x != m {
            StrLessTransitive(y, m, x);
          }
        }
        assert IsLeast(y, s);
      }
    }
  }

  lemma LeastUnique(s: set<string>)
    ensures forall m1, m2 | IsLeast(m1, s) && IsLeast(m2, s) :: m1 == m2
  {
    forall m1, m2 | IsLeast(m1, s) && IsLeast(m2, s) ensures m1 == m2 {
      if m1 != m2 {
        assert StrLess(m1, m2) && StrLess(m2, m1);
        StrLessAsymmetric(m1, m2);
      }
    }
  }

  /** sorted(s) for a set of strings: every element once, in increasing order. */
  function SortedStrings(s: set<string>): (r: seq<string>)
    ensures StrictlySorted(r)
    ensures forall x :: x in r <==> x in s
    ensures |r| == |s|
    decreases |s|
  {
    if s == {} then []
    else
      LeastExists(s);
      LeastUnique(s);
      var m :| IsLeast(m, s);
      var rest := SortedStrings(s - {m});
      assert forall x | x in rest :: StrLess(m, x);
      [m] + rest
  }

  /** Lists joined end to end. */
  function Flatten<T>(xs: seq<seq<T>>): seq<T> {
    if xs == [] then [] else xs[0] + Flatten(xs[1..])
  }

  /** chunks(items, n) from lib/util.py, read as consecutive slicing: runs of
      n items, the last one possibly shorter; together they are the items. */
  function Chunks<T>(items: seq<T>, n: nat): (r: seq<seq<T>>)
    requires n > 0
    ensures Flatten(r) == items
    ensures forall i | 0 <= i < |r| :: 0 < |r[i]| <= n
    ensures forall i | 0 <= i < |r| - 1 :: |r[i]| == n
    decreases |items|
  {
    if items == [] then []
    else if |items| <= n then
      assert Flatten([items]) == items + Flatten([]);
      [items]
    else
      var rest := Chunks(items[n..], n);
      assert Flatten([items[..n]] + rest) == items[..n] + Flatten(rest) by {
        assert ([items[..n]] + rest)[1..] == rest;
      }
      assert items[..n] + items[n..] == items;
      [items[..n]] + rest
  }

  /** Every item of a chunk is one of the items chunked. */
  lemma {:induction false} Flatten1Member<T>(xs: seq<seq<T>>, k: nat)
    requires k < |xs|
    ensures forall x | x in xs[k] :: x in Flatten(xs)
  {
    if k > 0 {
      Flatten1Member(xs[1..], k - 1);
    }
  }
}
