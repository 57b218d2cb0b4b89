/**
 * Sequences seen through a natural-number key: keeping the elements with one
 * key value (`Array.prototype.filter`), and stable sorting. JavaScript's
 * `Array.prototype.sort` is stable, and a stable sort has exactly one
 * possible output, so the insertion sort below is a reference definition of
 * what the source's `sort((a, b) => a.score - b.score)` (ascending) and
 * `sort((a, b) => b.score - a.score)` (descending) produce.
 */
module Sorting {

  // ---------------------------------------------------------------- filtering by key

  /** The elements of `s` whose key is `v`, in their order. */
  function Filter<T>(key: T -> nat, v: nat, s: seq<T>): (r: seq<T>)
    ensures |r| <= |s|
    ensures forall k :: 0 <= k < |r| ==> r[k] in s && key(r[k]) == v
  {
    if s == [] then []
    else
      assert s == [s[0]] + s[1..];
      (if key(s[0]) == v then [s[0]] else []) + Filter(key, v, s[1..])
  }

  /** Nothing with key `v` is dropped. */
  lemma {:induction false} FilterKeeps<T>(key: T -> nat, v: nat, s: seq<T>, x: T)
    requires x in s && key(x) == v
    ensures x in Filter(key, v, s)
  {
    if x != s[0] {
      assert x in s[1..];
      FilterKeeps(key, v, s[1..], x);
    }
  }

  /** Filtering seen as a multiset: each element keeps its multiplicity if it has the key, else has none. */
  lemma {:induction false} FilterMultiset<T>(key: T -> nat, v: nat, s: seq<T>, x: T)
    ensures multiset(Filter(key, v, s))[x] == if key(x) == v then multiset(s)[x] else 0
  {
    if s != [] {
      FilterMultiset(key, v, s[1..], x);
      assert s == [s[0]] + s[1..];
    }
  }

  /** Two rearrangements of the same elements have the same elements of each key, and as many. */
  lemma {:induction false} FilterSameMultiset<T>(key: T -> nat, v: nat, s: seq<T>, t: seq<T>)
    requires multiset(s) == multiset(t)
    ensures multiset(Filter(key, v, s)) == multiset(Filter(key, v, t))
    ensures |Filter(key, v, s)| == |Filter(key, v, t)|
  {
    forall x ensures multiset(Filter(key, v, s))[x] == multiset(Filter(key, v, t))[x] {
      FilterMultiset(key, v, s, x);
      FilterMultiset(key, v, t, x);
    }
    assert multiset(Filter(key, v, s)) == multiset(Filter(key, v, t));
    assert |multiset(Filter(key, v, s))| == |Filter(key, v, s)|;
    assert |multiset(Filter(key, v, t))| == |Filter(key, v, t)|;
  }

  /**
   * Exchanging one element for another with the same key: the elements with
   * that key lose the one and gain the other, and every key keeps its number
   * of elements.
   */
  lemma {:induction false} FilterExchangeSameKey<T>(key: T -> nat, s: seq<T>, t: seq<T>, out: T, x: T)
    requires out in s && key(out) == key(x)
    requires multiset(t) == multiset(s) - multiset{out} + multiset{x}
    ensures multiset(Filter(key, key(x), t)) == multiset(Filter(key, key(x), s)) - multiset{out} + multiset{x}
    ensures |Filter(key, key(x), t)| == |Filter(key, key(x), s)|
  {
    var v := key(x);
    var ft, fs := multiset(Filter(key, v, t)), multiset(Filter(key, v, s));
    assert ft == fs - multiset{out} + multiset{x} by {
      forall y ensures ft[y] == (fs - multiset{out} + multiset{x})[y] {
        FilterExchangeAt(key, s, t, out, x, y);
      }
    }
    assert out in fs by {
      FilterMultiset(key, v, s, out);
    }
    assert |ft| == |Filter(key, v, t)| && |fs| == |Filter(key, v, s)|;
  }

  /** One element's multiplicity in `FilterExchangeSameKey`. */
  lemma {:induction false} FilterExchangeAt<T>(key: T -> nat, s: seq<T>, t: seq<T>, out: T, x: T, y: T)
    requires key(out) == key(x)
    requires multiset(t) == multiset(s) - multiset{out} + multiset{x}
    ensures multiset(Filter(key, key(x), t))[y] == (multiset(Filter(key, key(x), s)) - multiset{out} + multiset{x})[y]
  {
    FilterMultiset(key, key(x), t, y);
    FilterMultiset(key, key(x), s, y);
  }

  /** ... while the elements with any other key are the same elements. */
  lemma {:induction false} FilterExchangeOtherKey<T>(key: T -> nat, v: nat, s: seq<T>, t: seq<T>, out: T, x: T)
    requires key(out) == key(x) != v
    requires multiset(t) == multiset(s) - multiset{out} + multiset{x}
    ensures multiset(Filter(key, v, t)) == multiset(Filter(key, v, s))
  {
    forall y ensures multiset(Filter(key, v, t))[y] == multiset(Filter(key, v, s))[y] {
      FilterMultiset(key, v, t, y);
      FilterMultiset(key, v, s, y);
    }
  }

  /** Filtering keeps relative order: it distributes over concatenation. */
  lemma {:induction false} FilterAppend<T>(key: T -> nat, v: nat, s: seq<T>, t: seq<T>)
    ensures Filter(key, v, s + t) == Filter(key, v, s) + Filter(key, v, t)
  {
    if s == [] {
      assert s + t == t;
    } else {
      assert (s + t)[0] == s[0] && (s + t)[1..] == s[1..] + t;
      FilterAppend(key, v, s[1..], t);
    }
  }

  /** Filtering by two keys gives the same sequence in either order. */
  lemma {:induction false} FilterCommute<T>(k1: T -> nat, a: nat, k2: T -> nat, b: nat, s: seq<T>)
    ensures Filter(k1, a, Filter(k2, b, s)) == Filter(k2, b, Filter(k1, a, s))
  {
    if s != [] {
      var rest := s[1..];
      FilterCommute(k1, a, k2, b, rest);
      var h1 := if k1(s[0]) == a then [s[0]] else [];
      var h2 := if k2(s[0]) == b then [s[0]] else [];
      FilterAppend(k1, a, h2, Filter(k2, b, rest));
      FilterAppend(k2, b, h1, Filter(k1, a, rest));
      assert Filter(k1, a, h2) == Filter(k2, b, h1);
    }
  }

  /** The first element of `s` with key `v` heads the filtered sequence. */
  lemma {:induction false} FilterHead<T>(key: T -> nat, v: nat, s: seq<T>, j: nat)
    requires j < |s| && key(s[j]) == v
    requires forall i :: 0 <= i < j ==> key(s[i]) != v
    ensures Filter(key, v, s) != [] && Filter(key, v, s)[0] == s[j]
  {
    if j > 0 {
      FilterHead(key, v, s[1..], j - 1);
    }
  }

  /**
   * Where the element at `j` of the filtered sequence sits in `s`: at `p`, and
   * every element with the key before `p` is among the first `j` filtered ones.
   */
  lemma {:induction false} FilterIndex<T>(key: T -> nat, v: nat, s: seq<T>, j: nat) returns (p: nat)
    requires j < |Filter(key, v, s)|
    ensures p < |s| && s[p] == Filter(key, v, s)[j]
    ensures forall i :: 0 <= i < p && key(s[i]) == v ==> s[i] in Filter(key, v, s)[..j]
  {
    var f, rest := Filter(key, v, s), Filter(key, v, s[1..]);
    if key(s[0]) == v {
      assert f == [s[0]] + rest;
      if j == 0 {
        p := 0;
      } else {
        var q := FilterIndex(key, v, s[1..], j - 1);
        p := q + 1;
        assert f[..j] == [s[0]] + rest[..j - 1];
        forall i | 0 <= i < p && key(s[i]) == v ensures s[i] in f[..j] {
          if i > 0 {
            assert s[i] == s[1..][i - 1];
          }
        }
      }
    } else {
      assert f == rest;
      var q := FilterIndex(key, v, s[1..], j);
      p := q + 1;
      forall i | 0 <= i < p && key(s[i]) == v ensures s[i] in f[..j] {
        assert s[i] == s[1..][i - 1];
      }
    }
  }

  /** The position of the first element with key `v`: the head of the filtered sequence. */
  lemma {:induction false} FirstWithKey<T>(key: T -> nat, v: nat, s: seq<T>) returns (q: nat)
    requires Filter(key, v, s) != []
    ensures q < |s| && s[q] == Filter(key, v, s)[0]
    ensures forall t :: 0 <= t < q ==> key(s[t]) != v
  {
    if key(s[0]) == v {
      q := 0;
    } else {
      var p := FirstWithKey(key, v, s[1..]);
      q := p + 1;
      forall t | 0 < t < q ensures key(s[t]) != v {
        assert s[t] == s[1..][t - 1];
      }
    }
  }

  // ---------------------------------------------------------------- stable sort

  /** `y` may stay in front of `x`: `y` is not strictly after `x` in the chosen direction. */
  predicate Stays<T>(key: T -> nat, desc: bool, y: T, x: T)
  {
    if desc then key(y) >= key(x) else key(y) <= key(x)
  }

  /** Every element is in order with every later one. */
  ghost predicate Ordered<T>(key: T -> nat, desc: bool, s: seq<T>)
  {
    forall i, j :: 0 <= i < j < |s| ==> Stays(key, desc, s[i], s[j])
  }

  /** Insert `x` behind every element that may stay in front of it (stable). */
  function Insert<T>(key: T -> nat, desc: bool, s: seq<T>, x: T): (r: seq<T>)
    ensures |r| == |s| + 1
  {
    if s == [] || Stays(key, desc, s[|s| - 1], x) then s + [x]
    else Insert(key, desc, s[..|s| - 1], x) + [s[|s| - 1]]
  }

  /** Stable sort: insert each element, in order, into the sorted prefix before it. */
  function Sort<T>(key: T -> nat, desc: bool, s: seq<T>): (r: seq<T>)
    ensures |r| == |s|
  {
    if s == [] then [] else Insert(key, desc, Sort(key, desc, s[..|s| - 1]), s[|s| - 1])
  }

  lemma {:induction false} InsertPermutes<T>(key: T -> nat, desc: bool, s: seq<T>, x: T)
    ensures multiset(Insert(key, desc, s, x)) == multiset(s) + multiset{x}
  {
    if !(s == [] || Stays(key, desc, s[|s| - 1], x)) {
      InsertPermutes(key, desc, s[..|s| - 1], x);
      assert s == s[..|s| - 1] + [s[|s| - 1]];
    }
  }

  /** An element before the last of an ordered sequence may stay in front of it. */
  lemma {:induction false} BeforeLast<T>(key: T -> nat, desc: bool, s: seq<T>, y: T)
    requires Ordered(key, desc, s) && s != [] && y in s[..|s| - 1]
    ensures Stays(key, desc, y, s[|s| - 1])
  {
    var k :| 0 <= k < |s| - 1 && s[..|s| - 1][k] == y;
    assert s[k] == y;
  }

  lemma {:induction false} InsertOrdered<T>(key: T -> nat, desc: bool, s: seq<T>, x: T)
    requires Ordered(key, desc, s)
    ensures Ordered(key, desc, Insert(key, desc, s, x))
  {
    if !(s == [] || Stays(key, desc, s[|s| - 1], x)) {
      var init, last := s[..|s| - 1], s[|s| - 1];
      InsertOrdered(key, desc, init, x);
      InsertPermutes(key, desc, init, x);
      var ins := Insert(key, desc, init, x);
      forall y | y in ins ensures Stays(key, desc, y, last) {
        assert y in multiset(ins);
        if y != x {
          assert y in multiset(init);
          BeforeLast(key, desc, s, y);
        }
      }
      var r := ins + [last];
      assert forall i :: 0 <= i < |ins| ==> r[i] == ins[i];
    }
  }

  /** The sort returns an ordered rearrangement of its input. */
  lemma {:induction false} SortCorrect<T>(key: T -> nat, desc: bool, s: seq<T>)
    ensures Ordered(key, desc, Sort(key, desc, s))
    ensures multiset(Sort(key, desc, s)) == multiset(s)
  {
    if s != [] {
      var init, last := s[..|s| - 1], s[|s| - 1];
      var sorted := Sort(key, desc, init);
      SortCorrect(key, desc, init);
      InsertOrdered(key, desc, sorted, last);
      InsertPermutes(key, desc, sorted, last);
      assert Sort(key, desc, s) == Insert(key, desc, sorted, last);
      assert s == init + [last];
      assert multiset(s) == multiset(init) + multiset{last};
    }
  }

  /**
   * Where insertion puts `x`: behind position j - 1, when every element from
   * j on must follow `x` and the one before j (if any) may stay in front of it.
   */
  lemma {:induction false} InsertPosition<T>(key: T -> nat, desc: bool, s: seq<T>, j: nat, x: T)
    requires j <= |s|
    requires forall k :: j <= k < |s| ==> !Stays(key, desc, s[k], x)
    requires j == 0 || Stays(key, desc, s[j - 1], x)
    ensures Insert(key, desc, s, x) == s[..j] + [x] + s[j..]
    decreases |s|
  {
    if j == |s| {
      assert s[..j] == s && s[j..] == [];
    } else {
      var init := s[..|s| - 1];
      assert init[..j] == s[..j];
      InsertPosition(key, desc, init, j, x);
      assert s[j..] == init[j..] + [s[|s| - 1]];
    }
  }

  /** Sorting one more element inserts it into the sorted prefix. */
  lemma {:induction false} SortSnoc<T>(key: T -> nat, desc: bool, s: seq<T>, i: nat)
    requires i < |s|
    ensures Sort(key, desc, s[..i + 1]) == Insert(key, desc, Sort(key, desc, s[..i]), s[i])
  {
    assert s[..i + 1][..i] == s[..i];
  }

  /** Two elements with different keys are never both kept, so their order does not matter. */
  lemma {:induction false} FilterSwap<T>(key: T -> nat, v: nat, a: T, b: T)
    requires key(a) != key(b)
    ensures Filter(key, v, [a]) + Filter(key, v, [b]) == Filter(key, v, [b]) + Filter(key, v, [a])
  {
    assert [a][1..] == [] && [b][1..] == [];
  }

  /** Insertion keeps, for each key value, the order of the elements with that key. */
  lemma {:induction false} InsertStable<T>(key: T -> nat, desc: bool, s: seq<T>, x: T, v: nat)
    ensures Filter(key, v, Insert(key, desc, s, x)) == Filter(key, v, s + [x])
  {
    if !(s == [] || Stays(key, desc, s[|s| - 1], x)) {
      var init, last := s[..|s| - 1], s[|s| - 1];
      var ins := Insert(key, desc, init, x);
      assert s == init + [last];
      // `last` must follow `x`, so their keys differ.
      calc {
        Filter(key, v, Insert(key, desc, s, x));
        Filter(key, v, ins + [last]);
        { FilterAppend(key, v, ins, [last]); }
        Filter(key, v, ins) + Filter(key, v, [last]);
        { InsertStable(key, desc, init, x, v); }
        Filter(key, v, init + [x]) + Filter(key, v, [last]);
        { FilterAppend(key, v, init, [x]); }
        Filter(key, v, init) + (Filter(key, v, [x]) + Filter(key, v, [last]));
        { FilterSwap(key, v, x, last); }
        Filter(key, v, init) + (Filter(key, v, [last]) + Filter(key, v, [x]));
        { FilterAppend(key, v, init, [last]); }
        Filter(key, v, s) + Filter(key, v, [x]);
        { FilterAppend(key, v, s, [x]); }
        Filter(key, v, s + [x]);
      }
    }
  }

  /** The sort is stable: for each key value, the elements with that key keep their input order. */
  lemma {:induction false} SortStable<T>(key: T -> nat, desc: bool, s: seq<T>, v: nat)
    ensures Filter(key, v, Sort(key, desc, s)) == Filter(key, v, s)
  {
    if s != [] {
      var init, last := s[..|s| - 1], s[|s| - 1];
      SortStable(key, desc, init, v);
      InsertStable(key, desc, Sort(key, desc, init), last, v);
      FilterAppend(key, v, Sort(key, desc, init), [last]);
      FilterAppend(key, v, init, [last]);
      assert s == init + [last];
    }
  }

  /** Stability within a second filter: among the elements whose `k2` is `b`, ties keep their order. */
  lemma {:induction false} SortStableWithin<T>(key: T -> nat, desc: bool, k2: T -> nat, b: nat, s: seq<T>, v: nat)
    ensures Filter(key, v, Filter(k2, b, Sort(key, desc, s))) == Filter(key, v, Filter(k2, b, s))
  {
    FilterCommute(key, v, k2, b, Sort(key, desc, s));
    SortStable(key, desc, s, v);
    FilterCommute(key, v, k2, b, s);
  }

  /** Filtering an ordered sequence leaves it ordered. */
  lemma {:induction false} FilterOrdered<T>(key: T -> nat, desc: bool, k2: T -> nat, b: nat, s: seq<T>)
    requires Ordered(key, desc, s)
    ensures Ordered(key, desc, Filter(k2, b, s))
  {
    if s != [] {
      var rest := s[1..];
      assert Ordered(key, desc, rest) by {
        forall i, j | 0 <= i < j < |rest| ensures Stays(key, desc, rest[i], rest[j]) {
          assert rest[i] == s[i + 1] && rest[j] == s[j + 1];
        }
      }
      FilterOrdered(key, desc, k2, b, rest);
      var fr := Filter(k2, b, rest);
      if k2(s[0]) == b {
        var r := [s[0]] + fr;
        forall i, j | 0 <= i < j < |r| ensures Stays(key, desc, r[i], r[j]) {
          assert r[j] == fr[j - 1] && fr[j - 1] in rest;
          if i == 0 {
            var k :| 0 <= k < |rest| && rest[k] == fr[j - 1];
            assert s[k + 1] == r[j];
          } else {
            assert r[i] == fr[i - 1];
          }
        }
      }
    }
  }
}
