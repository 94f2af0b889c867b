/**
 * Merging a batch of incoming messages into a cached folder page:
 * `updateMailMap`, `filterAndMergeMailIDs` and `getUpdatesFolderMap`.
 */
module MailMerge {
  import opened Collections
  import opened MailModel

  function IdSet(batch: seq<Mail>): set<int> {
    set m | m in batch :: m.id
  }

  /** `mails.map(mail => mail.id)` */
  function IdsOf(batch: seq<Mail>): (r: seq<int>)
    ensures |r| == |batch|
    ensures forall i :: 0 <= i < |batch| ==> r[i] == batch[i].id
  {
    if batch == [] then [] else [batch[0].id] + IdsOf(batch[1..])
  }

  /** `mails.filter(mail => !mail.read)` */
  function UnreadOf(batch: seq<Mail>): (r: seq<Mail>)
    ensures forall m :: m in r <==> m in batch && !m.read
  {
    if batch == [] then [] else (if batch[0].read then [] else [batch[0]]) + UnreadOf(batch[1..])
  }

  /** `newMails.filter(mail => (checkUnread ? !mail.read : true)).map(mail => mail.id)` */
  function BatchIds(batch: seq<Mail>, checkUnread: bool): (r: seq<int>)
    ensures Elems(r) <= IdSet(batch)
    ensures forall x :: x in r <==> exists m :: m in batch && m.id == x && (checkUnread ==> !m.read)
  {
    var source := if checkUnread then UnreadOf(batch) else batch;
    var r := IdsOf(source);
    assert forall x :: x in r ==> exists m :: m in source && m.id == x by {
      forall x | x in r ensures exists m :: m in source && m.id == x {
        var i :| 0 <= i < |r| && r[i] == x;
        assert source[i] in source;
      }
    }
    assert forall m :: m in source ==> m.id in r by {
      forall m | m in source ensures m.id in r {
        var i :| 0 <= i < |source| && source[i] == m;
        assert r[i] == m.id;
      }
    }
    r
  }

  /** Mail `i` of the batch is the last one that carries its id. */
  predicate LastWithId(batch: seq<Mail>, i: int)
    requires 0 <= i < |batch|
  {
    forall j :: i < j < |batch| ==> batch[j].id != batch[i].id
  }

  /**
   * The map built by `for (const mail of mails) map[mail.id] = mail`
   * (`newMailsMap`, `temporaryMailMap`): a later mail overwrites an earlier
   * one with the same id.
   */
  function BatchMap(batch: seq<Mail>): (r: map<int, Mail>)
    ensures r.Keys == IdSet(batch)
    ensures KeyedById(r)
  {
    if batch == [] then map[]
    else
      var n := |batch| - 1;
      assert IdSet(batch) == IdSet(batch[..n]) + {batch[n].id} by {
        assert batch == batch[..n] + [batch[n]];
      }
      BatchMap(batch[..n])[batch[n].id := batch[n]]
  }

  /** The batch map holds, for each id, the last mail of the batch that carries it. */
  lemma {:induction false} BatchMapLatest(batch: seq<Mail>, i: int)
    requires 0 <= i < |batch| && LastWithId(batch, i)
    ensures batch[i].id in BatchMap(batch) && BatchMap(batch)[batch[i].id] == batch[i]
    decreases |batch|
  {
    var n := |batch| - 1;
    var front := BatchMap(batch[..n]);
    assert BatchMap(batch) == front[batch[n].id := batch[n]];
    if i < n {
      assert batch[..n][i] == batch[i];
      assert batch[i].id in front && front[batch[i].id] == batch[i] by {
        assert LastWithId(batch[..n], i) by {
          forall j | i < j < n ensures batch[..n][j].id != batch[..n][i].id {
            assert batch[j].id != batch[i].id;
          }
        }
        BatchMapLatest(batch[..n], i);
      }
      assert batch[i].id != batch[n].id;
    }
  }

  /**
   * `updateMailMap`: upsert every mail of the batch by id, whole records, the
   * last of several mails with one id winning; other entries stay as they were.
   */
  function UpdateMailMap(current: map<int, Mail>, mails: seq<Mail>): (r: map<int, Mail>)
    ensures r.Keys == current.Keys + IdSet(mails)
    ensures forall k :: k in current && k !in IdSet(mails) ==> r[k] == current[k]
    ensures KeyedById(current) ==> KeyedById(r)
  {
    if |mails| > 0 then current + BatchMap(mails) else current
  }

  /** After the upsert, each id of the batch maps to the last mail carrying it. */
  lemma UpdateMailMapLatest(current: map<int, Mail>, mails: seq<Mail>, i: int)
    requires 0 <= i < |mails| && LastWithId(mails, i)
    ensures UpdateMailMap(current, mails)[mails[i].id] == mails[i]
  {
    BatchMapLatest(mails, i);
  }

  /** Upserting the same batch twice leaves the map as one upsert does. */
  lemma UpdateMailMapIdempotent(current: map<int, Mail>, mails: seq<Mail>)
    ensures UpdateMailMap(UpdateMailMap(current, mails), mails) == UpdateMailMap(current, mails)
  {
    var once := UpdateMailMap(current, mails);
    var twice := UpdateMailMap(once, mails);
    forall k | k in once
      ensures twice[k] == once[k]
    {
      if |mails| > 0 && k in IdSet(mails) {
        assert twice[k] == BatchMap(mails)[k];
      }
    }
  }

  /**
   * What the id-substituting `mailIDs.map(...)` threads along: the ids produced
   * so far, the cached ids still in the old part, and `parentWithChild`.
   */
  datatype Collapsed = Collapsed(ids: seq<int>, remaining: seq<int>, parents: seq<int>)

  /**
   * One call of the mapping callback: a new mail whose parent is still among
   * the remaining cached ids is replaced by that parent, which leaves the old part.
   */
  function CollapseStep(batch: map<int, Mail>, acc: Collapsed, id: int): (r: Collapsed)
    requires id in batch
    ensures |r.ids| == |acc.ids| + 1 && r.ids[..|acc.ids|] == acc.ids
    ensures Elems(r.remaining) <= Elems(acc.remaining)
  {
    var m := batch[id];
    if m.parent.Some? && m.parent.value in acc.remaining then
      var p := m.parent.value;
      Collapsed(acc.ids + [p], Without(acc.remaining, {p}), Without(acc.parents, {p}) + [p])
    else
      Collapsed(acc.ids + [id], acc.remaining, acc.parents)
  }

  /** The callback run over `todo` in order: one output id per batch id, appended to `acc.ids`. */
  function CollapseThreads(todo: seq<int>, batch: map<int, Mail>, acc: Collapsed): (r: Collapsed)
    requires forall x :: x in todo ==> x in batch
    ensures |r.ids| == |acc.ids| + |todo| && r.ids[..|acc.ids|] == acc.ids
    ensures Elems(r.remaining) <= Elems(acc.remaining)
    decreases |todo|
  {
    if todo == [] then acc
    else
      var next := CollapseStep(batch, acc, todo[0]);
      var c := CollapseThreads(todo[1..], batch, next);
      assert c.ids[..|acc.ids|] == c.ids[..|next.ids|][..|acc.ids|];
      c
  }

  /**
   * The merge of a batch into a non-empty cached id list, before truncation:
   * cached ids that reappear in the batch leave the old part, then (in
   * conversation view) thread collapsing runs over the batch ids.
   */
  function Merge(batch: seq<Mail>, cached: seq<int>, checkUnread: bool, conversation: bool): (r: Collapsed)
    ensures |r.ids| == |BatchIds(batch, checkUnread)|
    ensures Elems(r.remaining) <= Elems(cached) - Elems(BatchIds(batch, checkUnread))
  {
    var ids := BatchIds(batch, checkUnread);
    var rest := Without(cached, Elems(ids));
    assert Elems(rest) <= Elems(cached) - Elems(ids);
    if conversation then CollapseThreads(ids, BatchMap(batch), Collapsed([], rest, [])) else Collapsed(ids, rest, [])
  }

  /**
   * The id list both `filterAndMergeMailIDs` and `getUpdatesFolderMap` return:
   * with a cached page, the collapsed batch ids ahead of the surviving old ids,
   * cut to `limit`; with nothing cached, the batch ids as they are.
   */
  function MergeIds(batch: seq<Mail>, cached: seq<int>, limit: int, checkUnread: bool, conversation: bool): (r: seq<int>)
    ensures |cached| > 0 && limit >= 0 ==> |r| <= limit
    ensures |cached| == 0 ==> r == BatchIds(batch, checkUnread)
  {
    if |cached| > 0 then
      var c := Merge(batch, cached, checkUnread, conversation);
      Truncate(c.ids + c.remaining, limit)
    else
      BatchIds(batch, checkUnread)
  }

  datatype MergeResult = MergeResult(mails: seq<int>, total: nat)

  /**
   * `getUpdatesFolderMap`: the merged id list and the new total. With a cached
   * page the total is `old + new ids - collapsed parents - duplicates`,
   * floored at 0; with nothing cached it is the number of batch ids.
   */
  function GetUpdatesFolderMap(batch: seq<Mail>, st: FolderInfo, limit: int, checkUnread: bool, conversation: bool): (r: MergeResult)
    ensures r.mails == MergeIds(batch, st.mails, limit, checkUnread, conversation)
    ensures |st.mails| == 0 ==> r.total == |BatchIds(batch, checkUnread)|
  {
    var ids := BatchIds(batch, checkUnread);
    if |st.mails| > 0 then
      var c := Merge(batch, st.mails, checkUnread, conversation);
      var duplicated := Within(st.mails, Elems(ids));
      var t := st.total + |c.ids| - |c.parents| - |duplicated|;
      MergeResult(Truncate(c.ids + c.remaining, limit), if t >= 0 then t else 0)
    else
      MergeResult(ids, |ids|)
  }

  /** The `newMailsMap` loop of `filterAndMergeMailIDs`: later mails overwrite earlier ones. */
  method BuildBatchMap(newMails: seq<Mail>) returns (r: map<int, Mail>)
    ensures r == BatchMap(newMails)
  {
    r := map[];
    for i := 0 to |newMails|
      invariant r == BatchMap(newMails[..i])
    {
      assert newMails[..i + 1][..i] == newMails[..i];
      r := r[newMails[i].id := newMails[i]];
    }
    assert newMails[..|newMails|] == newMails;
  }

  /** The mapping callback of `filterAndMergeMailIDs`, run over `mailIDs` in order. */
  method CollapseLoop(mailIDs: seq<int>, newMailsMap: map<int, Mail>, original: seq<int>) returns (r: Collapsed)
    requires forall x :: x in mailIDs ==> x in newMailsMap
    ensures r == CollapseThreads(mailIDs, newMailsMap, Collapsed([], original, []))
  {
    var substituted: seq<int> := [];
    var remaining := original;
    var parents: seq<int> := [];
    for i := 0 to |mailIDs|
      invariant CollapseThreads(mailIDs[i..], newMailsMap, Collapsed(substituted, remaining, parents))
             == CollapseThreads(mailIDs, newMailsMap, Collapsed([], original, []))
    {
      ghost var before := Collapsed(substituted, remaining, parents);
      assert mailIDs[i] in mailIDs;
      var newMail := newMailsMap[mailIDs[i]];
      assert mailIDs[i..][1..] == mailIDs[i + 1..];
      if newMail.parent.Some? && newMail.parent.value in remaining {
        var p := newMail.parent.value;
        remaining := Without(remaining, {p});
        parents := Without(parents, {p}) + [p];
        substituted := substituted + [p];
      } else {
        substituted := substituted + [mailIDs[i]];
      }
      assert Collapsed(substituted, remaining, parents) == CollapseStep(newMailsMap, before, mailIDs[i]);
    }
    r := Collapsed(substituted, remaining, parents);
  }

  /** `filterAndMergeMailIDs`, step by step as the source reassigns its lists. */
  method FilterAndMergeMailIDs(newMails: seq<Mail>, originalMailIDs: seq<int>, limit: int, checkUnread: bool)
    returns (r: seq<int>)
    ensures r == MergeIds(newMails, originalMailIDs, limit, checkUnread, true)
  {
    var mailIDs := BatchIds(newMails, checkUnread);
    var newMailsMap := BuildBatchMap(newMails);
    if |originalMailIDs| > 0 {
      var original := Without(originalMailIDs, Elems(mailIDs));
      var c := CollapseLoop(mailIDs, newMailsMap, original);
      r := Truncate(c.ids + c.remaining, limit);
    } else {
      r := mailIDs;
    }
  }

  /**
   * The id thread collapsing emits for batch id `id` carrying mail `m`: the
   * mail's parent when it is still in the old part `oldPart` and not among the
   * ids `before` emitted earlier, otherwise `id` itself.
   */
  function CollapsedId(m: Mail, id: int, oldPart: seq<int>, before: seq<int>): int {
    if m.parent.Some? && m.parent.value in oldPart && m.parent.value !in before then m.parent.value else id
  }

  /** Emitting `head` ahead of `before` and dropping it from the old part picks the same id. */
  lemma CollapsedIdShift(m: Mail, id: int, oldPart: seq<int>, next: seq<int>, head: int, before: seq<int>)
    requires forall v :: v in next <==> v in oldPart && v != head
    ensures CollapsedId(m, id, next, before) == CollapsedId(m, id, oldPart, [head] + before)
  {
  }

  /**
   * Thread collapsing, position by position: the output for batch id `todo[i]`
   * is that mail's parent exactly when the parent is in the old part and has
   * not already been emitted by an earlier position; otherwise it is the id itself.
   */
  lemma {:induction false} CollapsePositions(todo: seq<int>, batch: map<int, Mail>, acc: Collapsed)
    requires forall x :: x in todo ==> x in batch
    requires Elems(todo) !! Elems(acc.remaining)
    ensures var c := CollapseThreads(todo, batch, acc);
      var n := |acc.ids|;
      forall i :: 0 <= i < |todo| ==> c.ids[n + i] == CollapsedId(batch[todo[i]], todo[i], acc.remaining, c.ids[n..n + i])
    decreases |todo|, 1
  {
    if todo != [] {
      var c := CollapseThreads(todo, batch, acc);
      var next := CollapseStep(batch, acc, todo[0]);
      var n := |acc.ids|;
      HeadPosition(todo, batch, acc);
      TailPositions(todo, batch, next, c, n);
      PositionsShift(todo, batch, acc.remaining, next.remaining, c.ids, n);
    }
  }

  /** The first step of `CollapsePositions`: the first position, and the old part it leaves. */
  lemma HeadPosition(todo: seq<int>, batch: map<int, Mail>, acc: Collapsed)
    requires |todo| > 0 && forall x :: x in todo ==> x in batch
    requires Elems(todo) !! Elems(acc.remaining)
    ensures var c := CollapseThreads(todo, batch, acc);
      var next := CollapseStep(batch, acc, todo[0]);
      var n := |acc.ids|;
      && c == CollapseThreads(todo[1..], batch, next)
      && c.ids[n] == CollapsedId(batch[todo[0]], todo[0], acc.remaining, [])
      && (forall v :: v in next.remaining <==> v in acc.remaining && v != c.ids[n])
      && Elems(todo[1..]) !! Elems(next.remaining)
  {
    var c := CollapseThreads(todo, batch, acc);
    var next := CollapseStep(batch, acc, todo[0]);
    var n := |acc.ids|;
    assert c.ids[n] == next.ids[n] by {
      assert c.ids[..n + 1] == next.ids;
    }
    CollapseStepPosition(batch, acc, todo[0]);
    assert todo[0] in Elems(todo);
    assert Elems(todo[1..]) <= Elems(todo);
  }

  /** `CollapsePositions` for the batch ids after the first, over the old part the first step leaves. */
  lemma {:induction false} TailPositions(todo: seq<int>, batch: map<int, Mail>, next: Collapsed, c: Collapsed, n: nat)
    requires |todo| > 0 && forall x :: x in todo ==> x in batch
    requires Elems(todo[1..]) !! Elems(next.remaining)
    requires |next.ids| == n + 1 && c == CollapseThreads(todo[1..], batch, next)
    ensures forall i :: 1 <= i < |todo| ==>
      c.ids[n + i] == CollapsedId(batch[todo[i]], todo[i], next.remaining, c.ids[n + 1..n + i])
    decreases |todo|, 0
  {
    CollapsePositions(todo[1..], batch, next);
    forall i | 1 <= i < |todo|
      ensures c.ids[n + i] == CollapsedId(batch[todo[i]], todo[i], next.remaining, c.ids[n + 1..n + i])
    {
      assert todo[1..][i - 1] == todo[i];
      assert n + i == |next.ids| + (i - 1);
    }
  }

  /** The induction step of `CollapsePositions`: the first position, then the rest over the shrunk old part. */
  lemma PositionsShift(todo: seq<int>, batch: map<int, Mail>, oldPart: seq<int>, next: seq<int>, ids: seq<int>, n: nat)
    requires forall i :: 0 <= i < |todo| ==> todo[i] in batch
    requires |todo| > 0 && |ids| == n + |todo|
    requires forall v :: v in next <==> v in oldPart && v != ids[n]
    requires ids[n] == CollapsedId(batch[todo[0]], todo[0], oldPart, [])
    requires forall i :: 1 <= i < |todo| ==> ids[n + i] == CollapsedId(batch[todo[i]], todo[i], next, ids[n + 1..n + i])
    ensures forall i :: 0 <= i < |todo| ==> ids[n + i] == CollapsedId(batch[todo[i]], todo[i], oldPart, ids[n..n + i])
  {
    forall i | 0 <= i < |todo|
      ensures ids[n + i] == CollapsedId(batch[todo[i]], todo[i], oldPart, ids[n..n + i])
    {
      if i == 0 {
        assert ids[n..n] == [];
      } else {
        assert ids[n..n + i] == [ids[n]] + ids[n + 1..n + i];
        CollapsedIdShift(batch[todo[i]], todo[i], oldPart, next, ids[n], ids[n + 1..n + i]);
      }
    }
  }

  /** One callback step appends the mail's parent when it is still in the old part, which loses it, and the mail's own id otherwise. */
  lemma CollapseStepPosition(batch: map<int, Mail>, acc: Collapsed, id: int)
    requires id in batch
    ensures var next := CollapseStep(batch, acc, id);
      var n := |acc.ids|;
      var par := batch[id].parent;
      && next.ids == acc.ids + [next.ids[n]]
      && (par.Some? && par.value in acc.remaining ==>
            next.ids[n] == par.value && Elems(next.remaining) == Elems(acc.remaining) - {par.value})
      && (!(par.Some? && par.value in acc.remaining) ==> next.ids[n] == id && next.remaining == acc.remaining)
  {
  }

  /**
   * The parent list of thread collapsing: collapsed parents come from the old
   * part, are emitted among the output ids, and are exactly what the old part loses.
   */
  lemma {:induction false} CollapseParents(todo: seq<int>, batch: map<int, Mail>, acc: Collapsed)
    requires forall x :: x in todo ==> x in batch
    requires Elems(acc.parents) !! Elems(acc.remaining)
    requires Elems(acc.parents) <= Elems(acc.ids)
    ensures var c := CollapseThreads(todo, batch, acc);
      && Elems(acc.parents) <= Elems(c.parents) <= Elems(acc.parents) + Elems(acc.remaining)
      && Elems(c.parents) <= Elems(c.ids)
      && Elems(c.parents) !! Elems(c.remaining)
      && c.remaining == Without(acc.remaining, Elems(c.parents))
    decreases |todo|
  {
    var c := CollapseThreads(todo, batch, acc);
    if todo == [] {
      WithoutAbsent(acc.remaining, Elems(acc.parents));
    } else {
      var next := CollapseStep(batch, acc, todo[0]);
      CollapseStepParents(batch, acc, todo[0]);
      CollapseParents(todo[1..], batch, next);
      WithoutTwice(acc.remaining, Elems(next.parents), Elems(c.parents));
      assert Elems(next.parents) + Elems(c.parents) == Elems(c.parents);
    }
  }

  /** One callback step keeps the parent bookkeeping `CollapseParents` relies on. */
  lemma CollapseStepParents(batch: map<int, Mail>, acc: Collapsed, id: int)
    requires id in batch
    requires Elems(acc.parents) !! Elems(acc.remaining)
    requires Elems(acc.parents) <= Elems(acc.ids)
    ensures var next := CollapseStep(batch, acc, id);
      && Elems(acc.parents) <= Elems(next.parents) <= Elems(acc.parents) + Elems(acc.remaining)
      && Elems(next.parents) <= Elems(next.ids)
      && Elems(next.parents) !! Elems(next.remaining)
      && next.remaining == Without(acc.remaining, Elems(next.parents))
  {
    var next := CollapseStep(batch, acc, id);
    var m := batch[id];
    if m.parent.Some? && m.parent.value in acc.remaining {
      var p := m.parent.value;
      assert next.parents == acc.parents + [p] by {
        assert p !in Elems(acc.parents);
        WithoutAbsent(acc.parents, {p});
      }
      assert Elems(next.parents) == Elems(acc.parents) + {p};
      assert Elems(next.remaining) == Elems(acc.remaining) - {p};
      assert next.ids == acc.ids + [p];
      assert Elems(next.ids) == Elems(acc.ids) + {p};
      assert next.remaining == Without(acc.remaining, Elems(next.parents)) by {
        WithoutAbsent(acc.remaining, Elems(acc.parents));
        WithoutTwice(acc.remaining, Elems(acc.parents), {p});
      }
    } else {
      assert next.ids == acc.ids + [id];
      assert Elems(next.ids) == Elems(acc.ids) + {id};
      WithoutAbsent(acc.remaining, Elems(acc.parents));
    }
  }


  /** Thread collapsing never produces an id twice when its inputs are duplicate-free and disjoint. */
  lemma {:induction false} CollapseDistinct(todo: seq<int>, batch: map<int, Mail>, acc: Collapsed)
    requires forall x :: x in todo ==> x in batch
    requires Distinct(todo) && Distinct(acc.ids) && Distinct(acc.remaining)
    requires Elems(todo) !! Elems(acc.ids) && Elems(todo) !! Elems(acc.remaining)
    requires Elems(acc.ids) !! Elems(acc.remaining)
    ensures var c := CollapseThreads(todo, batch, acc); Distinct(c.ids + c.remaining)
    decreases |todo|
  {
    if todo == [] {
      DistinctConcat(acc.ids, acc.remaining);
    } else {
      var next := CollapseStep(batch, acc, todo[0]);
      var m := batch[todo[0]];
      assert todo[0] !in Elems(todo[1..]) by {
        assert forall j :: 0 < j < |todo| ==> todo[j] != todo[0];
      }
      assert Elems(todo[1..]) <= Elems(todo);
      var x := if m.parent.Some? && m.parent.value in acc.remaining then m.parent.value else todo[0];
      assert next.ids == acc.ids + [x];
      assert x !in Elems(acc.ids);
      DistinctConcat(acc.ids, [x]);
      if m.parent.Some? && m.parent.value in acc.remaining {
        DistinctWithout(acc.remaining, {x});
        assert x !in Elems(todo);
      }
      assert Elems(next.ids) == Elems(acc.ids) + {x};
      assert Elems(next.remaining) <= Elems(acc.remaining) - {x};
      CollapseDistinct(todo[1..], batch, next);
    }
  }

  /** Collapsing moves each collapsed parent from the old part to the parent list, one for one. */
  lemma {:induction false} CollapseCount(todo: seq<int>, batch: map<int, Mail>, acc: Collapsed)
    requires forall x :: x in todo ==> x in batch
    requires Distinct(acc.remaining) && Distinct(acc.parents)
    requires Elems(acc.parents) !! Elems(acc.remaining)
    ensures var c := CollapseThreads(todo, batch, acc);
      |c.remaining| + |c.parents| == |acc.remaining| + |acc.parents| && |c.ids| == |acc.ids| + |todo|
    decreases |todo|
  {
    if todo != [] {
      var next := CollapseStep(batch, acc, todo[0]);
      CollapseStepCount(batch, acc, todo[0]);
      CollapseCount(todo[1..], batch, next);
    }
  }

  /** One callback step moves at most one id from the old part to the parents, keeping both duplicate-free. */
  lemma CollapseStepCount(batch: map<int, Mail>, acc: Collapsed, id: int)
    requires id in batch
    requires Distinct(acc.remaining) && Distinct(acc.parents)
    requires Elems(acc.parents) !! Elems(acc.remaining)
    ensures var next := CollapseStep(batch, acc, id);
      && Distinct(next.remaining) && Distinct(next.parents)
      && Elems(next.parents) !! Elems(next.remaining)
      && |next.remaining| + |next.parents| == |acc.remaining| + |acc.parents|
      && |next.ids| == |acc.ids| + 1
  {
    var m := batch[id];
    if m.parent.Some? && m.parent.value in acc.remaining {
      var p := m.parent.value;
      var next := CollapseStep(batch, acc, id);
      assert next.parents == acc.parents + [p] by {
        assert p !in Elems(acc.parents);
        WithoutAbsent(acc.parents, {p});
      }
      assert |next.remaining| + 1 == |acc.remaining| by {
        WithoutOne(acc.remaining, p);
      }
      DistinctWithout(acc.remaining, {p});
      assert Distinct(next.parents) by {
        DistinctConcat(acc.parents, [p]);
      }
      assert Elems(next.parents) == Elems(acc.parents) + {p};
    }
  }


  /**
   * Merge order: with a cached page in conversation view, the result is the
   * batch ids followed by the cached ids that are neither in the batch nor a
   * collapsed parent, in their cached order, cut to `limit`. A batch id is
   * replaced by its mail's parent exactly when that parent is cached, is not
   * itself in the batch, and has not been emitted for an earlier batch id.
   */
  lemma MergeOrder(batch: seq<Mail>, cached: seq<int>, limit: int, checkUnread: bool)
    requires |cached| > 0
    ensures var ids := BatchIds(batch, checkUnread);
      var c := Merge(batch, cached, checkUnread, true);
      && MergeIds(batch, cached, limit, checkUnread, true) == Truncate(c.ids + c.remaining, limit)
      && |c.ids| == |ids|
      && (forall i :: 0 <= i < |ids| ==>
            c.ids[i] ==
              var par := BatchMap(batch)[ids[i]].parent;
              if par.Some? && par.value in cached && par.value !in ids && par.value !in c.ids[..i] then par.value else ids[i])
      && Elems(c.parents) <= Elems(cached) - Elems(ids)
      && Elems(c.parents) <= Elems(c.ids)
      && c.remaining == Without(cached, Elems(ids) + Elems(c.parents))
  {
    var ids := BatchIds(batch, checkUnread);
    var rest := Without(cached, Elems(ids));
    var start := Collapsed([], rest, []);
    var c := Merge(batch, cached, checkUnread, true);
    assert c == CollapseThreads(ids, BatchMap(batch), start);
    MergePositions(batch, cached, checkUnread);
    assert Elems(c.parents) <= Elems(rest) && Elems(c.parents) <= Elems(c.ids)
        && c.remaining == Without(rest, Elems(c.parents)) by {
      CollapseParents(ids, BatchMap(batch), start);
    }
    WithoutTwice(cached, Elems(ids), Elems(c.parents));
  }

  /** The position clause of `MergeOrder`, from `CollapsePositions` over the surviving cached ids. */
  lemma MergePositions(batch: seq<Mail>, cached: seq<int>, checkUnread: bool)
    ensures var ids := BatchIds(batch, checkUnread);
      var c := Merge(batch, cached, checkUnread, true);
      forall i :: 0 <= i < |ids| ==>
        c.ids[i] ==
          var par := BatchMap(batch)[ids[i]].parent;
          if par.Some? && par.value in cached && par.value !in ids && par.value !in c.ids[..i] then par.value else ids[i]
  {
    var ids := BatchIds(batch, checkUnread);
    CollapseOverCache(ids, BatchMap(batch), cached);
  }

  /** `CollapsePositions` when the old part is the cached list without the batch ids. */
  lemma CollapseOverCache(ids: seq<int>, bm: map<int, Mail>, cached: seq<int>)
    requires forall x :: x in ids ==> x in bm
    ensures var c := CollapseThreads(ids, bm, Collapsed([], Without(cached, Elems(ids)), []));
      forall i :: 0 <= i < |ids| ==>
        c.ids[i] ==
          var par := bm[ids[i]].parent;
          if par.Some? && par.value in cached && par.value !in ids && par.value !in c.ids[..i] then par.value else ids[i]
  {
    var rest := Without(cached, Elems(ids));
    var start := Collapsed([], rest, []);
    var c := CollapseThreads(ids, bm, start);
    assert Elems(ids) !! Elems(rest);
    CollapsePositions(ids, bm, start);
    forall i | 0 <= i < |ids|
      ensures c.ids[i] ==
        var par := bm[ids[i]].parent;
        if par.Some? && par.value in cached && par.value !in ids && par.value !in c.ids[..i] then par.value else ids[i]
    {
      assert c.ids[i] == CollapsedId(bm[ids[i]], ids[i], rest, c.ids[0..i]);
    }
  }

  /**
   * De-duplication: when the batch ids and the cached ids are each free of
   * duplicates, so is the merged list (with or without thread collapsing).
   */
  lemma MergeNoDuplicates(batch: seq<Mail>, cached: seq<int>, limit: int, checkUnread: bool, conversation: bool)
    requires Distinct(BatchIds(batch, checkUnread)) && Distinct(cached)
    ensures Distinct(MergeIds(batch, cached, limit, checkUnread, conversation))
  {
    if |cached| > 0 {
      var ids := BatchIds(batch, checkUnread);
      var rest := Without(cached, Elems(ids));
      DistinctWithout(cached, Elems(ids));
      var c := Merge(batch, cached, checkUnread, conversation);
      if conversation {
        CollapseDistinct(ids, BatchMap(batch), Collapsed([], rest, []));
      } else {
        DistinctConcat(ids, rest);
      }
      DistinctPrefix(c.ids + c.remaining, |Truncate(c.ids + c.remaining, limit)|);
    }
  }

  /**
   * Merged total: over a duplicate-free cached page, the new total moves by
   * exactly the change in the number of listed rows (before the page cut),
   * floored at 0; with nothing cached it is the number of batch ids.
   */
  lemma MergedTotalTracksRows(batch: seq<Mail>, st: FolderInfo, limit: int, checkUnread: bool, conversation: bool)
    requires Distinct(st.mails)
    ensures var r := GetUpdatesFolderMap(batch, st, limit, checkUnread, conversation);
      if |st.mails| > 0 then
        var c := Merge(batch, st.mails, checkUnread, conversation);
        var t := st.total + |c.ids + c.remaining| - |st.mails|;
        r.total == if t >= 0 then t else 0
      else
        r.total == |BatchIds(batch, checkUnread)|
  {
    if |st.mails| > 0 {
      var ids := BatchIds(batch, checkUnread);
      var rest := Without(st.mails, Elems(ids));
      SplitCount(st.mails, Elems(ids));
      DistinctWithout(st.mails, Elems(ids));
      if conversation {
        CollapseCount(ids, BatchMap(batch), Collapsed([], rest, []));
      }
    }
  }
}
