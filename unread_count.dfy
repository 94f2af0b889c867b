/** `getTotalUnreadCount`: the unread total over the per-folder counters. */
module UnreadCount {
  import opened Collections

  /** A counter value: a number, or a value for which `Number.isNaN` holds. */
  datatype CountValue = Num(n: int) | NaN

  /** One property of the counter object, in the object's key order. */
  type Entry = (string, CountValue)

  /**
   * Keys left out of the total: folders that are never unread, and bookkeeping
   * keys. The folder keys are the string values taken for `MailFolderType`.
   */
  const ExcludedKeys: set<string> := {
    "sent", "trash", "draft", "outbox", "spam", "total_unread_count", "starred",
    "updateUnreadCount", "outbox_dead_man_counter", "outbox_delayed_delivery_counter",
    "outbox_self_destruct_counter"
  }

  predicate Counted(e: Entry) {
    e.0 !in ExcludedKeys && e.1.Num?
  }

  function Contribution(e: Entry): int {
    if Counted(e) then e.1.n else 0
  }

  /** The sum of the counted values, over the entries in order. */
  function UnreadSum(data: seq<Entry>): (r: int)
    ensures (forall i :: 0 <= i < |data| ==> !Counted(data[i])) ==> r == 0
  {
    if data == [] then 0 else UnreadSum(data[..|data| - 1]) + Contribution(data[|data| - 1])
  }

  /** `getTotalUnreadCount`: 0 for absent data, otherwise the running total of the loop. */
  method GetTotalUnreadCount(data: Option<seq<Entry>>) returns (total: int)
    ensures data.None? ==> total == 0
    ensures data.Some? ==> total == UnreadSum(data.value)
  {
    if data.None? {
      return 0;
    }
    var entries := data.value;
    var totalCount := 0;
    for i := 0 to |entries|
      invariant totalCount == UnreadSum(entries[..i])
    {
      assert entries[..i + 1][..i] == entries[..i];
      if entries[i].0 !in ExcludedKeys && entries[i].1.Num? {
        totalCount := totalCount + entries[i].1.n;
      }
    }
    assert entries[..|entries|] == entries;
    return totalCount;
  }

  /** The total of two runs of entries is the sum of their totals. */
  lemma {:induction false} UnreadSumAppend(a: seq<Entry>, b: seq<Entry>)
    ensures UnreadSum(a + b) == UnreadSum(a) + UnreadSum(b)
    decreases |b|
  {
    if b != [] {
      var n := |b| - 1;
      assert (a + b)[..|a + b| - 1] == a + b[..n];
      assert (a + b)[|a + b| - 1] == b[n];
      UnreadSumAppend(a, b[..n]);
    } else {
      assert a + b == a;
    }
  }

  /** An entry that is excluded or not a number leaves the total unchanged wherever it sits. */
  lemma IgnoredEntry(a: seq<Entry>, e: Entry, b: seq<Entry>)
    requires !Counted(e)
    ensures UnreadSum(a + [e] + b) == UnreadSum(a + b)
  {
    UnreadSumAppend(a + [e], b);
    UnreadSumAppend(a, [e]);
    UnreadSumAppend(a, b);
    assert UnreadSum([e]) == UnreadSum([e][..0]) + Contribution(e);
  }

  /**
   * Storing the total under `total_unread_count`, as the unread-count handler
   * does, and summing again gives the same total.
   */
  lemma TotalIsStable(data: seq<Entry>)
    ensures UnreadSum(data + [("total_unread_count", Num(UnreadSum(data)))]) == UnreadSum(data)
  {
    var e: Entry := ("total_unread_count", Num(UnreadSum(data)));
    assert (data + [e])[..|data|] == data;
  }

  /** With non-negative counters the total is non-negative and at least each counted value. */
  lemma {:induction false} UnreadSumBounds(data: seq<Entry>)
    requires forall i :: 0 <= i < |data| && data[i].1.Num? ==> data[i].1.n >= 0
    ensures UnreadSum(data) >= 0
    ensures forall i :: 0 <= i < |data| && Counted(data[i]) ==> UnreadSum(data) >= data[i].1.n
  {
    if data != [] {
      var n := |data| - 1;
      UnreadSumBounds(data[..n]);
      forall i | 0 <= i < |data| && Counted(data[i])
        ensures UnreadSum(data) >= data[i].1.n
      {
        if i < n {
          assert data[..n][i] == data[i];
        }
      }
    }
  }
}
