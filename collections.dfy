/** Sequence helpers shared by the diff: distinctness, the set of elements,
    and the enumeration of a set difference. */
module Collections {

  /** No element occurs twice. */
  predicate Distinct<T(==)>(s: seq<T>) {
    forall i, j :: 0 <= i < j < |s| ==> s[i] != s[j]
  }

  /** The elements of `s` as a set (Python's `set(s)`). */
  function Elems<T>(s: seq<T>): set<T> {
    set x | x in s
  }

  /** The elements of `s` that are not in `excl`, each once, in order of first
      occurrence: one enumeration of the Python set difference `set(s) - excl`. */
  function Minus<T(==)>(s: seq<T>, excl: set<T>): (r: seq<T>)
    ensures Elems(r) == Elems(s) - excl
    ensures Distinct(r)
    decreases |s|
  {
    if s == [] then []
    else
      assert s == [s[0]] + s[1..];
      assert Elems(s) == {s[0]} + Elems(s[1..]);
      if s[0] in excl then Minus(s[1..], excl)
      else
        var rest := Minus(s[1..], excl + {s[0]});
        assert Elems([s[0]] + rest) == {s[0]} + Elems(rest);
        [s[0]] + rest
  }

  /** Two duplicate-free sequences with no common element join into one. */
  lemma DistinctJoin<T>(x: seq<T>, y: seq<T>)
    requires Distinct(x) && Distinct(y)
    requires forall a :: a in x ==> a !in y
    ensures Distinct(x + y)
  {
    var xy := x + y;
    forall i, j | 0 <= i < j < |xy|
      ensures xy[i] != xy[j]
    {
      if j >= |x| {
        assert xy[j] == y[j - |x|];
        if i < |x| {
          assert xy[i] == x[i] && x[i] in x;
        } else {
          assert xy[i] == y[i - |x|];
        }
      }
    }
  }

  /** Concatenation is associative (stated once, for use where the context is
      large). */
  lemma ConcatAssoc<T>(a: seq<T>, b: seq<T>, c: seq<T>)
    ensures a + b + c == a + (b + c)
  {
  }
}
