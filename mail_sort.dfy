/** `sortByDueDateWithID`: the cached ids of a folder, newest update first. */
module MailSort {
  import opened Collections
  import opened MailModel

  /** `mail.updated || 0`: a message without a timestamp sorts as time 0. */
  function UpdatedKey(m: Mail): int {
    if m.updated.Some? then m.updated.value else 0
  }

  predicate AllIn(s: seq<int>, mm: map<int, Mail>) {
    forall i :: 0 <= i < |s| ==> s[i] in mm
  }

  /** The sort key of an id: its message's timestamp, 0 for an unknown id. */
  function Key(mm: map<int, Mail>, x: int): int {
    if x in mm then UpdatedKey(mm[x]) else 0
  }

  /** Every id is a known message and timestamps never increase along the list. */
  predicate NewestFirst(s: seq<int>, mm: map<int, Mail>) {
    && AllIn(s, mm)
    && forall i, j :: 0 <= i < j < |s| ==> Key(mm, s[i]) >= Key(mm, s[j])
  }

  /** The ids of `s` whose message has timestamp `t`, in their order. */
  function WithKey(s: seq<int>, mm: map<int, Mail>, t: int): seq<int> {
    if s == [] then []
    else (if s[0] in mm && Key(mm, s[0]) == t then [s[0]] else []) + WithKey(s[1..], mm, t)
  }

  /**
   * Puts `x` in front of the first id that is not strictly newer, so `x` stays
   * ahead of later ids with an equal timestamp.
   */
  function InsertNewestFirst(x: int, s: seq<int>, mm: map<int, Mail>): (r: seq<int>)
    ensures multiset(r) == multiset(s) + multiset{x}
  {
    if s == [] || Key(mm, s[0]) <= Key(mm, x) then
      [x] + s
    else
      assert s == [s[0]] + s[1..];
      [s[0]] + InsertNewestFirst(x, s[1..], mm)
  }

  lemma {:induction false} InsertBounded(x: int, s: seq<int>, mm: map<int, Mail>, b: int)
    requires Key(mm, x) <= b && forall i :: 0 <= i < |s| ==> Key(mm, s[i]) <= b
    requires x in mm && AllIn(s, mm)
    ensures var r := InsertNewestFirst(x, s, mm);
      AllIn(r, mm) && forall i :: 0 <= i < |r| ==> Key(mm, r[i]) <= b
  {
    if s != [] && Key(mm, s[0]) > Key(mm, x) {
      InsertBounded(x, s[1..], mm, b);
      var r := InsertNewestFirst(x, s, mm);
      assert r == [s[0]] + InsertNewestFirst(x, s[1..], mm);
    }
  }

  lemma {:induction false} InsertKeepsOrder(x: int, s: seq<int>, mm: map<int, Mail>)
    requires x in mm && NewestFirst(s, mm)
    ensures NewestFirst(InsertNewestFirst(x, s, mm), mm)
  {
    if s != [] && Key(mm, s[0]) > Key(mm, x) {
      var r := InsertNewestFirst(x, s, mm);
      var tail := InsertNewestFirst(x, s[1..], mm);
      assert NewestFirst(s[1..], mm);
      InsertKeepsOrder(x, s[1..], mm);
      InsertBounded(x, s[1..], mm, Key(mm, s[0]));
      assert r == [s[0]] + tail;
      assert forall j :: 0 < j < |r| ==> r[j] == tail[j - 1];
    }
  }

  /** Insertion sort by `InsertNewestFirst`: a stable sort, newest first. */
  function SortNewestFirst(s: seq<int>, mm: map<int, Mail>): (r: seq<int>)
    ensures multiset(r) == multiset(s)
  {
    if s == [] then []
    else
      assert s == [s[0]] + s[1..];
      InsertNewestFirst(s[0], SortNewestFirst(s[1..], mm), mm)
  }

  lemma {:induction false} SortIsNewestFirst(s: seq<int>, mm: map<int, Mail>)
    requires AllIn(s, mm)
    ensures NewestFirst(SortNewestFirst(s, mm), mm)
  {
    if s != [] {
      assert AllIn(s[1..], mm);
      SortIsNewestFirst(s[1..], mm);
      InsertKeepsOrder(s[0], SortNewestFirst(s[1..], mm), mm);
    }
  }

  /**
   * `sortByDueDateWithID`: the ids that are keys of the message map, each as
   * often as given, ordered by `updated` descending.
   */
  function SortByDueDateWithID(sortArray: seq<int>, mm: map<int, Mail>): (r: seq<int>)
    ensures multiset(r) == multiset(Within(sortArray, mm.Keys))
    ensures NewestFirst(r, mm)
  {
    var present := Within(sortArray, mm.Keys);
    assert AllIn(present, mm) by {
      assert forall i :: 0 <= i < |present| ==> present[i] in present;
    }
    SortIsNewestFirst(present, mm);
    SortNewestFirst(present, mm)
  }

  lemma {:induction false} InsertWithKey(x: int, s: seq<int>, mm: map<int, Mail>, t: int)
    requires x in mm
    ensures WithKey(InsertNewestFirst(x, s, mm), mm, t)
         == (if Key(mm, x) == t then [x] else []) + WithKey(s, mm, t)
  {
    var r := InsertNewestFirst(x, s, mm);
    if s == [] || Key(mm, s[0]) <= Key(mm, x) {
      assert r == [x] + s;
      assert r[1..] == s;
    } else {
      InsertWithKey(x, s[1..], mm, t);
      assert r == [s[0]] + InsertNewestFirst(x, s[1..], mm);
      assert r[1..] == InsertNewestFirst(x, s[1..], mm);
    }
  }

  /**
   * Stability: the ids sharing any one timestamp appear in the sorted list in
   * the order they had before. Together with `NewestFirst` and the multiset
   * equality this fixes the result uniquely, as any stable sort of
   * JavaScript's `Array.prototype.sort` with this comparator returns it.
   */
  lemma {:induction false} SortIsStable(s: seq<int>, mm: map<int, Mail>, t: int)
    requires AllIn(s, mm)
    ensures WithKey(SortNewestFirst(s, mm), mm, t) == WithKey(s, mm, t)
  {
    if s != [] {
      assert AllIn(s[1..], mm);
      SortIsStable(s[1..], mm, t);
      InsertWithKey(s[0], SortNewestFirst(s[1..], mm), mm, t);
    }
  }

  /** `sortByDueDateWithID` is stable on the ids it keeps. */
  lemma SortByDueDateIsStable(sortArray: seq<int>, mm: map<int, Mail>, t: int)
    ensures WithKey(SortByDueDateWithID(sortArray, mm), mm, t) == WithKey(Within(sortArray, mm.Keys), mm, t)
  {
    var present := Within(sortArray, mm.Keys);
    assert AllIn(present, mm) by {
      assert forall i :: 0 <= i < |present| ==> present[i] in present;
    }
    SortIsStable(present, mm, t);
  }
}
