/** Option and the small sequence vocabulary the reducer's id lists are built from. */
module Collections {

  datatype Option<+T> = None | Some(value: T)

  /** No id occurs twice. */
  predicate Distinct(s: seq<int>) {
    forall i, j :: 0 <= i < j < |s| ==> s[i] != s[j]
  }

  function Elems(s: seq<int>): set<int> {
    set x | x in s
  }

  /** `s.filter(x => !xs.includes(x))`: the elements outside `xs`, in their order. */
  function Without(s: seq<int>, xs: set<int>): (r: seq<int>)
    ensures |r| <= |s|
    ensures forall x :: x in r <==> x in s && x !in xs
  {
    if s == [] then [] else (if s[0] in xs then [] else [s[0]]) + Without(s[1..], xs)
  }

  /** `s.filter(x => xs.includes(x))`: the elements inside `xs`, in their order. */
  function Within(s: seq<int>, xs: set<int>): (r: seq<int>)
    ensures |r| <= |s|
    ensures forall x :: x in r <==> x in s && x in xs
  {
    if s == [] then [] else (if s[0] in xs then [s[0]] else []) + Within(s[1..], xs)
  }

  /**
   * `s.length > limit ? s.slice(0, limit) : s`. A negative `limit` is read the
   * way JavaScript reads a negative end index of `slice`: counted from the end.
   */
  function Truncate(s: seq<int>, limit: int): (r: seq<int>)
    ensures |r| <= |s| && r == s[..|r|]
    ensures limit >= 0 ==> |r| == if |s| > limit then limit else |s|
    ensures |s| <= limit ==> r == s
  {
    if |s| > limit then
      s[..if limit >= 0 then limit else if |s| + limit > 0 then |s| + limit else 0]
    else
      s
  }

  /** Every element of `s` falls on exactly one side of the split. */
  lemma {:induction false} SplitCount(s: seq<int>, xs: set<int>)
    ensures |Within(s, xs)| + |Without(s, xs)| == |s|
  {
    if s != [] {
      SplitCount(s[1..], xs);
    }
  }

  lemma {:induction false} DistinctWithout(s: seq<int>, xs: set<int>)
    requires Distinct(s)
    ensures Distinct(Without(s, xs))
  {
    if s != [] {
      DistinctWithout(s[1..], xs);
      var rest := Without(s[1..], xs);
      assert s[0] !in rest by {
        assert forall j :: 0 < j < |s| ==> s[j] != s[0];
      }
      if s[0] !in xs {
        assert Without(s, xs) == [s[0]] + rest;
        DistinctConcat([s[0]], rest);
      } else {
        assert Without(s, xs) == rest;
      }
    }
  }

  /** Removing one element that occurs once shortens the list by one. */
  lemma {:induction false} WithoutOne(s: seq<int>, x: int)
    requires Distinct(s) && x in s
    ensures |Without(s, {x})| == |s| - 1
  {
    if s[0] == x {
      assert x !in s[1..] by {
        assert forall j :: 0 < j < |s| ==> s[j] != s[0];
      }
      WithoutAbsent(s[1..], {x});
      assert Without(s, {x}) == Without(s[1..], {x});
    } else {
      assert x in s[1..];
      WithoutOne(s[1..], x);
      assert Without(s, {x}) == [s[0]] + Without(s[1..], {x});
    }
  }

  /** Filtering out what is not there changes nothing. */
  lemma {:induction false} WithoutAbsent(s: seq<int>, xs: set<int>)
    requires Elems(s) !! xs
    ensures Without(s, xs) == s
  {
    if s != [] {
      assert s[0] in Elems(s);
      WithoutAbsent(s[1..], xs);
      assert [s[0]] + s[1..] == s;
    }
  }

  /** Keeping only what is not there keeps nothing. */
  lemma {:induction false} WithinAbsent(s: seq<int>, xs: set<int>)
    requires Elems(s) !! xs
    ensures Within(s, xs) == []
  {
    if s != [] {
      assert s[0] in Elems(s);
      WithinAbsent(s[1..], xs);
    }
  }

  /** Two filters in a row are one filter by the union. */
  lemma {:induction false} WithoutTwice(s: seq<int>, a: set<int>, b: set<int>)
    ensures Without(Without(s, a), b) == Without(s, a + b)
  {
    if s != [] {
      WithoutTwice(s[1..], a, b);
      if s[0] in a {
        assert Without(s, a) == Without(s[1..], a);
      } else {
        assert Without(s, a) == [s[0]] + Without(s[1..], a);
        assert Without(s, a)[1..] == Without(s[1..], a);
      }
    }
  }

  /** Filtering a list extended by one element extends the filtered list by at most that element. */
  lemma {:induction false} WithoutSnoc(s: seq<int>, x: int, xs: set<int>)
    ensures Without(s + [x], xs) == Without(s, xs) + (if x in xs then [] else [x])
  {
    if s == [] {
      assert [] + [x] == [x];
      assert [x][1..] == [];
    } else {
      var head := if s[0] in xs then [] else [s[0]];
      var tail := if x in xs then [] else [x];
      assert (s + [x])[0] == s[0];
      assert (s + [x])[1..] == s[1..] + [x];
      assert Without(s + [x], xs) == head + Without(s[1..] + [x], xs);
      WithoutSnoc(s[1..], x, xs);
      assert head + (Without(s[1..], xs) + tail) == (head + Without(s[1..], xs)) + tail;
    }
  }

  lemma DistinctConcat(a: seq<int>, b: seq<int>)
    requires Distinct(a) && Distinct(b) && Elems(a) !! Elems(b)
    ensures Distinct(a + b)
  {
    forall i, j | 0 <= i < j < |a + b|
      ensures (a + b)[i] != (a + b)[j]
    {
      if j < |a| {
      } else if i >= |a| {
        assert (a + b)[i] == b[i - |a|] && (a + b)[j] == b[j - |a|];
      } else {
        assert (a + b)[i] == a[i] && a[i] in Elems(a);
        assert (a + b)[j] == b[j - |a|] && b[j - |a|] in Elems(b);
      }
    }
  }

  lemma DistinctPrefix(s: seq<int>, n: nat)
    requires Distinct(s) && n <= |s|
    ensures Distinct(s[..n])
  {
  }
}
