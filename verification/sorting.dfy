/**
 * `sorted(...)` on object keys: Python orders strings by comparing code points from the
 * left, a proper prefix coming first.
 */
module Sorting {

  /** `a <= b` on Python strings. */
  predicate Below(a: string, b: string)
    decreases |a|
  {
    if a == [] then true
    else if b == [] then false
    else if a[0] != b[0] then a[0] < b[0]
    else Below(a[1..], b[1..])
  }

  lemma {:induction false} BelowTotal(a: string, b: string)
    ensures Below(a, b) || Below(b, a)
    decreases |a|
  {
    if a != [] && b != [] && a[0] == b[0] {
      BelowTotal(a[1..], b[1..]);
    }
  }

  lemma {:induction false} BelowTransitive(a: string, b: string, c: string)
    requires Below(a, b) && Below(b, c)
    ensures Below(a, c)
    decreases |a|
  {
    if a != [] && b != [] && c != [] && a[0] == b[0] && b[0] == c[0] {
      BelowTransitive(a[1..], b[1..], c[1..]);
    }
  }

  lemma {:induction false} BelowAntisymmetric(a: string, b: string)
    requires Below(a, b) && Below(b, a)
    ensures a == b
    decreases |a|
  {
    if a != [] {
      BelowAntisymmetric(a[1..], b[1..]);
      assert a == [a[0]] + a[1..] && b == [b[0]] + b[1..];
    }
  }

  predicate Sorted(s: seq<string>) {
    forall i, j :: 0 <= i < j < |s| ==> Below(s[i], s[j])
  }

  /** `x` placed before the first element it is below. */
  function Insert(x: string, s: seq<string>): (r: seq<string>)
    ensures multiset(r) == multiset(s) + multiset{x}
  {
    if s == [] then [x]
    else if Below(x, s[0]) then [x] + s
    else
      assert s == [s[0]] + s[1..];
      [s[0]] + Insert(x, s[1..])
  }

  /** Insertion sort. */
  function Sort(s: seq<string>): (r: seq<string>)
    ensures multiset(r) == multiset(s)
  {
    if s == [] then []
    else
      assert s == [s[0]] + s[1..];
      Insert(s[0], Sort(s[1..]))
  }

  /** Every element of `s` is at or above `y`. */
  predicate Bounds(y: string, s: seq<string>) {
    forall k :: 0 <= k < |s| ==> Below(y, s[k])
  }

  lemma InsertBounds(y: string, x: string, s: seq<string>)
    requires Below(y, x) && Bounds(y, s)
    ensures Bounds(y, Insert(x, s))
  {
    var r := Insert(x, s);
    forall k | 0 <= k < |r| ensures Below(y, r[k]) {
      assert r[k] in multiset(r);
      if r[k] != x {
        assert r[k] in multiset(s);
        var i :| 0 <= i < |s| && s[i] == r[k];
      }
    }
  }

  lemma ConsSorted(y: string, r: seq<string>)
    requires Sorted(r) && Bounds(y, r)
    ensures Sorted([y] + r)
  {
    var out := [y] + r;
    forall i, j | 0 <= i < j < |out| ensures Below(out[i], out[j]) {
      if i == 0 {
        assert out[j] == r[j - 1];
      } else {
        assert out[i] == r[i - 1] && out[j] == r[j - 1];
      }
    }
  }

  lemma {:induction false} InsertSorted(x: string, s: seq<string>)
    requires Sorted(s)
    ensures Sorted(Insert(x, s))
  {
    if s != [] && !Below(x, s[0]) {
      BelowTotal(x, s[0]);
      InsertSorted(x, s[1..]);
      assert Bounds(s[0], s[1..]) by {
        forall k | 0 <= k < |s[1..]| ensures Below(s[0], s[1..][k]) {
          assert s[1..][k] == s[k + 1];
        }
      }
      InsertBounds(s[0], x, s[1..]);
      ConsSorted(s[0], Insert(x, s[1..]));
    } else if s != [] {
      assert Bounds(x, s) by {
        forall k | 0 <= k < |s| ensures Below(x, s[k]) {
          if k > 0 {
            BelowTransitive(x, s[0], s[k]);
          }
        }
      }
      ConsSorted(x, s);
    }
  }

  /** The keys, in order and each exactly as often as given. */
  lemma {:induction false} SortSpec(s: seq<string>)
    ensures Sorted(Sort(s)) && multiset(Sort(s)) == multiset(s)
  {
    if s != [] {
      SortSpec(s[1..]);
      InsertSorted(s[0], Sort(s[1..]));
    }
  }

  lemma SortedTail(r: seq<string>)
    requires r != [] && Sorted(r)
    ensures Sorted(r[1..])
  {
    forall i, j | 0 <= i < j < |r[1..]| ensures Below(r[1..][i], r[1..][j]) {
      assert r[1..][i] == r[i + 1] && r[1..][j] == r[j + 1];
    }
  }

  /** The first element of a sorted sequence is its least. */
  lemma SortedSameHead(r: seq<string>, t: seq<string>)
    requires r != [] && Sorted(r) && Sorted(t) && multiset(r) == multiset(t)
    ensures t != [] && r[0] == t[0]
  {
    assert r[0] in multiset(t);
    assert t[0] in multiset(r);
    var i :| 0 <= i < |t| && t[i] == r[0];
    var j :| 0 <= j < |r| && r[j] == t[0];
    if r[0] != t[0] {
      assert i > 0 && Below(t[0], t[i]);
      assert j > 0 && Below(r[0], r[j]);
      BelowAntisymmetric(r[0], t[0]);
    }
  }

  lemma MultisetTail(r: seq<string>, t: seq<string>)
    requires r != [] && t != [] && r[0] == t[0] && multiset(r) == multiset(t)
    ensures multiset(r[1..]) == multiset(t[1..])
  {
    assert r == [r[0]] + r[1..] && t == [t[0]] + t[1..];
    assert multiset(r) == multiset{r[0]} + multiset(r[1..]);
    assert multiset(t) == multiset{t[0]} + multiset(t[1..]);
    forall z ensures multiset(r[1..])[z] == multiset(t[1..])[z] {
      assert multiset(r)[z] == multiset{r[0]}[z] + multiset(r[1..])[z];
      assert multiset(t)[z] == multiset{t[0]}[z] + multiset(t[1..])[z];
    }
  }

  /** Two sorted orderings of the same keys are the same sequence, so the order is determined. */
  lemma {:induction false} SortedUnique(r: seq<string>, t: seq<string>)
    requires Sorted(r) && Sorted(t) && multiset(r) == multiset(t)
    ensures r == t
    decreases |r|
  {
    if r != [] {
      SortedSameHead(r, t);
      MultisetTail(r, t);
      SortedTail(r);
      SortedTail(t);
      SortedUnique(r[1..], t[1..]);
      assert r == [r[0]] + r[1..] && t == [t[0]] + t[1..];
    }
  }
}
