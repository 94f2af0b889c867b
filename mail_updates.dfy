/**
 * How the reducer cases rewrite message records: the per-record updates of
 * the `for (const key of Object.keys(mailMap))` loops, and the thread-children
 * bookkeeping of move, undo and delete.
 */
module MailUpdates {
  import opened Collections
  import opened MailModel

  /** The rewrite one reducer case applies to every record of the message map. */
  datatype RecordUpdate =
    | MoveTo(ids: seq<int>, target: Folder, source: Option<Folder>, withChildren: bool)
    | SetRead(ids: seq<int>, read: bool)
    | SetStarred(ids: seq<int>, starred: bool, withChildren: bool)
    | AdoptChild(parent: int)
    | Unmark

  /**
   * The new record stored under `key`. A move matches on the record's id, read
   * and star match on the map key, as the respective loops do.
   */
  function ApplyUpdate(u: RecordUpdate, key: int, m: Mail): (r: Mail)
    ensures r.id == m.id
  {
    match u
    case MoveTo(ids, target, source, withChildren) =>
      if m.id in ids then
        var moved := m.(folder := target);
        if target == Trash && m.hasChildren && m.childrenCount > 0 && withChildren then
          moved.(childrenInfo := Some(ChildrenInfo(m.childrenCount, 0)))
        else if source == Some(Trash) && m.hasChildren && m.childrenCount > 0 then
          moved.(childrenInfo := Some(ChildrenInfo(0, m.childrenCount)))
        else
          moved
      else m
    case SetRead(ids, read) =>
      if key in ids then m.(read := read) else m
    case SetStarred(ids, starred, withChildren) =>
      if key in ids then m.(starred := starred, hasStarredChildren := !(!starred && withChildren)) else m
    case AdoptChild(parent) =>
      if m.id == parent then
        m.(hasChildren := true, childrenCount := m.childrenCount + 1,
           childrenInfo := Some(if m.childrenInfo.Some?
                                then m.childrenInfo.value.(nonTrashChildren := m.childrenInfo.value.nonTrashChildren + 1)
                                else ChildrenInfo(0, 1)))
      else m
    case Unmark =>
      m.(marked := false)
  }

  /** The message map after the loop: every key kept, every record rewritten by `u`. */
  function Rewrite(mm: map<int, Mail>, u: RecordUpdate): (r: map<int, Mail>)
    ensures r.Keys == mm.Keys
    ensures KeyedById(mm) ==> KeyedById(r)
  {
    map k | k in mm :: ApplyUpdate(u, k, mm[k])
  }

  /** The loop over `Object.keys(mailMap)`, one key at a time. */
  method RewriteAll(mm: map<int, Mail>, u: RecordUpdate) returns (r: map<int, Mail>)
    ensures r == Rewrite(mm, u)
  {
    r := mm;
    var keys := mm.Keys;
    while keys != {}
      invariant keys <= mm.Keys && r.Keys == mm.Keys
      invariant forall j :: j in mm ==> r[j] == if j in keys then mm[j] else ApplyUpdate(u, j, mm[j])
      decreases keys
    {
      if forall x :: x !in keys {
        assert false;
      }
      var k :| k in keys;
      r := r[k := ApplyUpdate(u, k, mm[k])];
      keys := keys - {k};
    }
  }

  /**
   * Moving rewrites exactly the listed records: their folder becomes the
   * target; a parent with children moved to the trash (cascading) has all of
   * them in the trash, a parent moved out of the trash none; everything else,
   * and every unlisted record, is left as it was.
   */
  lemma MoveRecords(mm: map<int, Mail>, ids: seq<int>, target: Folder, source: Option<Folder>, withChildren: bool, k: int)
    requires KeyedById(mm) && k in mm
    ensures var r := Rewrite(mm, MoveTo(ids, target, source, withChildren));
      var m := mm[k];
      && (k !in ids ==> r[k] == m)
      && (k in ids ==> r[k] == m.(folder := target, childrenInfo := r[k].childrenInfo))
      && (k in ids && target == Trash && m.hasChildren && m.childrenCount > 0 && withChildren ==>
            r[k].childrenInfo == Some(ChildrenInfo(m.childrenCount, 0)))
      && (k in ids && !(target == Trash && withChildren) && source == Some(Trash) && m.hasChildren && m.childrenCount > 0 ==>
            r[k].childrenInfo == Some(ChildrenInfo(0, m.childrenCount)))
      && (k in ids && !(m.hasChildren && m.childrenCount > 0) ==> r[k].childrenInfo == m.childrenInfo)
  {
  }

  /**
   * A parent with `n` children moved into the trash with cascading, then from
   * the trash to another folder, ends with all `n` children counted outside the trash.
   */
  lemma MoveToTrashAndBack(mm: map<int, Mail>, k: int, from: Folder, to: Folder)
    requires KeyedById(mm) && k in mm && mm[k].hasChildren && mm[k].childrenCount > 0
    requires from != Trash && to != Trash
    ensures var once := Rewrite(mm, MoveTo([k], Trash, Some(from), true));
      && once[k].childrenInfo == Some(ChildrenInfo(mm[k].childrenCount, 0))
      && var twice := Rewrite(once, MoveTo([k], to, Some(Trash), true));
         twice[k].childrenInfo == Some(ChildrenInfo(0, mm[k].childrenCount)) && twice[k].folder == to
  {
    var once := Rewrite(mm, MoveTo([k], Trash, Some(from), true));
    assert once[k] == ApplyUpdate(MoveTo([k], Trash, Some(from), true), k, mm[k]);
    var twice := Rewrite(once, MoveTo([k], to, Some(Trash), true));
    assert twice[k] == ApplyUpdate(MoveTo([k], to, Some(Trash), true), k, once[k]);
  }

  /** Read and star touch only the listed keys and only their flags. */
  lemma FlagRecords(mm: map<int, Mail>, ids: seq<int>, flag: bool, withChildren: bool, k: int)
    requires k in mm
    ensures var r := Rewrite(mm, SetRead(ids, flag));
      r[k] == if k in ids then mm[k].(read := flag) else mm[k]
    ensures var r := Rewrite(mm, SetStarred(ids, flag, withChildren));
      && (k !in ids ==> r[k] == mm[k])
      && (k in ids ==> r[k].starred == flag && r[k] == mm[k].(starred := flag, hasStarredChildren := r[k].hasStarredChildren))
      && (k in ids ==> (r[k].hasStarredChildren <==> flag || !withChildren))
  {
  }

  /**
   * Adopting a new reply: the parent's child counter and its count outside the
   * trash each go up by one; no other record changes.
   */
  lemma AdoptRecords(mm: map<int, Mail>, parent: int, k: int)
    requires KeyedById(mm) && k in mm
    ensures var r := Rewrite(mm, AdoptChild(parent));
      && (k != parent ==> r[k] == mm[k])
      && (k == parent ==>
            && r[k].folder == mm[k].folder
            && r[k].hasChildren && r[k].childrenCount == mm[k].childrenCount + 1
            && r[k].childrenInfo.Some?
            && r[k].childrenInfo.value.nonTrashChildren
               == (if mm[k].childrenInfo.Some? then mm[k].childrenInfo.value.nonTrashChildren else 0) + 1
            && r[k].childrenInfo.value.trashChildren
               == (if mm[k].childrenInfo.Some? then mm[k].childrenInfo.value.trashChildren else 0))
  {
  }

  /**
   * `ids.map(id => mailMap[id] ? mailMap[id] : null).filter(mail => !!mail)`:
   * the records of the listed ids the map knows, in list order.
   */
  function MovedMails(ids: seq<int>, mm: map<int, Mail>): (r: seq<Mail>)
    ensures |r| == |Within(ids, mm.Keys)|
    ensures forall i :: 0 <= i < |r| ==> r[i] == mm[Within(ids, mm.Keys)[i]]
  {
    if ids == [] then []
    else
      var present := Within(ids, mm.Keys);
      if ids[0] in mm then
        assert present == [ids[0]] + Within(ids[1..], mm.Keys);
        [mm[ids[0]]] + MovedMails(ids[1..], mm)
      else
        MovedMails(ids[1..], mm)
  }

  /** A thread summary with `k` more replies counted in the trash and `k` fewer outside, floored at zero. */
  function Shift(info: ChildrenInfo, k: nat): ChildrenInfo {
    ChildrenInfo(info.trashChildren + k, ClampedSub(info.nonTrashChildren, k))
  }

  lemma ShiftAdd(info: ChildrenInfo, a: nat, b: nat)
    ensures Shift(Shift(info, a), b) == Shift(info, a + b)
  {
  }

  /**
   * One reply moved to the trash: its cached parent, when it has a summary,
   * counts one more reply in the trash and one fewer outside.
   */
  function TrashOne(mm: map<int, Mail>, c: Mail, target: Folder): (r: map<int, Mail>)
    ensures r.Keys == mm.Keys
    ensures forall k :: k in mm && c.parent != Some(k) ==> r[k] == mm[k]
    ensures forall k :: k in mm && c.parent == Some(k) ==>
      r[k] == if target == Trash && mm[k].childrenInfo.Some?
              then mm[k].(childrenInfo := Some(Shift(mm[k].childrenInfo.value, 1)))
              else mm[k]
  {
    if target == Trash && c.parent.Some? && c.parent.value in mm && mm[c.parent.value].childrenInfo.Some? then
      var p := mm[c.parent.value];
      mm[c.parent.value := p.(childrenInfo := Some(Shift(p.childrenInfo.value, 1)))]
    else mm
  }

  /** `incomeMails.forEach(...)`: `TrashOne` for each reply, in order. */
  function TrashLoneChildren(mm: map<int, Mail>, incomes: seq<Mail>, target: Folder): (r: map<int, Mail>)
    ensures r.Keys == mm.Keys
  {
    if incomes == [] then mm
    else TrashOne(TrashLoneChildren(mm, incomes[..|incomes| - 1], target), incomes[|incomes| - 1], target)
  }

  /** How many of `cs` name `p` as their parent. */
  function ChildCount(cs: seq<Mail>, p: int): nat {
    if cs == [] then 0
    else ChildCount(cs[..|cs| - 1], p) + (if cs[|cs| - 1].parent == Some(p) then 1 else 0)
  }

  /**
   * Closed form of the reply bookkeeping when moving to the trash: every
   * parent with a summary is shifted once per reply that names it, its count
   * outside the trash floored at zero; every other record is unchanged. Moving
   * anywhere else changes nothing.
   */
  lemma {:induction false} TrashLoneChildrenCount(mm: map<int, Mail>, incomes: seq<Mail>, target: Folder)
    ensures var r := TrashLoneChildren(mm, incomes, target);
      && r.Keys == mm.Keys
      && (target != Trash ==> r == mm)
      && forall p :: p in mm ==>
           r[p] == if target == Trash && mm[p].childrenInfo.Some?
                   then mm[p].(childrenInfo := Some(Shift(mm[p].childrenInfo.value, ChildCount(incomes, p))))
                   else mm[p]
    decreases |incomes|
  {
    if incomes != [] {
      var n := |incomes| - 1;
      var front := TrashLoneChildren(mm, incomes[..n], target);
      TrashLoneChildrenCount(mm, incomes[..n], target);
      var c := incomes[n];
      var r := TrashOne(front, c, target);
      assert r == TrashLoneChildren(mm, incomes, target);
      forall p | p in mm
        ensures r[p] == if target == Trash && mm[p].childrenInfo.Some?
                        then mm[p].(childrenInfo := Some(Shift(mm[p].childrenInfo.value, ChildCount(incomes, p))))
                        else mm[p]
      {
        var one := if c.parent == Some(p) then 1 else 0;
        assert ChildCount(incomes, p) == ChildCount(incomes[..n], p) + one;
        if target == Trash && mm[p].childrenInfo.Some? {
          ShiftAdd(mm[p].childrenInfo.value, ChildCount(incomes[..n], p), one);
        }
      }
    }
  }

  /** Keeping the message map keyed by id through the reply bookkeeping. */
  lemma TrashLoneChildrenKeyed(mm: map<int, Mail>, incomes: seq<Mail>, target: Folder)
    requires KeyedById(mm)
    ensures KeyedById(TrashLoneChildren(mm, incomes, target))
  {
    TrashLoneChildrenCount(mm, incomes, target);
  }

  /**
   * One undone message: when the undo returns to the trash and the message is a
   * parent with children still in the map, all its children count as trashed.
   */
  function RestoreOne(mm: map<int, Mail>, m: Mail, source: Folder): (r: map<int, Mail>)
    ensures r.Keys == mm.Keys
    ensures forall k :: k in mm && k != m.id ==> r[k] == mm[k]
    ensures m.id in mm && source == Trash && m.hasChildren && m.childrenCount > 0 ==>
      r[m.id].childrenInfo == Some(ChildrenInfo(mm[m.id].childrenCount, 0))
  {
    if source == Trash && m.hasChildren && m.childrenCount > 0 && m.id in mm then
      mm[m.id := mm[m.id].(childrenInfo := Some(ChildrenInfo(mm[m.id].childrenCount, 0)))]
    else mm
  }

  /** `undoMails.forEach(...)` of the undo case. */
  function RestoreChildren(mm: map<int, Mail>, undo: seq<Mail>, source: Folder): (r: map<int, Mail>)
    ensures r.Keys == mm.Keys
  {
    if undo == [] then mm
    else RestoreOne(RestoreChildren(mm, undo[..|undo| - 1], source), undo[|undo| - 1], source)
  }

  /** Some undone message with this id reports children. */
  predicate RestoresParent(undo: seq<Mail>, k: int) {
    exists i :: 0 <= i < |undo| && undo[i].id == k && undo[i].hasChildren && undo[i].childrenCount > 0
  }

  /**
   * Closed form of the undo bookkeeping: undoing back into the trash sets every
   * undone parent's summary to all children trashed (its own child count, as
   * stored); nothing else changes.
   */
  lemma {:induction false} RestoreChildrenEffect(mm: map<int, Mail>, undo: seq<Mail>, source: Folder)
    ensures var r := RestoreChildren(mm, undo, source);
      && r.Keys == mm.Keys
      && forall k :: k in mm ==>
           r[k] == if source == Trash && RestoresParent(undo, k)
                   then mm[k].(childrenInfo := Some(ChildrenInfo(mm[k].childrenCount, 0)))
                   else mm[k]
    decreases |undo|
  {
    if undo != [] {
      var n := |undo| - 1;
      RestoreChildrenEffect(mm, undo[..n], source);
      forall k | k in mm
        ensures RestoresParent(undo, k) <==>
                  (RestoresParent(undo[..n], k) || (undo[n].id == k && undo[n].hasChildren && undo[n].childrenCount > 0))
      {
        if RestoresParent(undo, k) {
          var i :| 0 <= i < |undo| && undo[i].id == k && undo[i].hasChildren && undo[i].childrenCount > 0;
          if i < n {
            assert undo[..n][i] == undo[i];
          }
        }
        if RestoresParent(undo[..n], k) {
          var i :| 0 <= i < n && undo[..n][i].id == k && undo[..n][i].hasChildren && undo[..n][i].childrenCount > 0;
          assert undo[i] == undo[..n][i];
        }
      }
    }
  }

  lemma RestoreChildrenKeyed(mm: map<int, Mail>, undo: seq<Mail>, source: Folder)
    requires KeyedById(mm)
    ensures KeyedById(RestoreChildren(mm, undo, source))
  {
    RestoreChildrenEffect(mm, undo, source);
  }

  /**
   * Undoing a move out of the trash: a parent whose children were all in the
   * trash, moved out and then undone back into the trash, has all its children
   * counted in the trash again.
   */
  lemma UndoRestoresTrashedThread(mm: map<int, Mail>, k: int, to: Folder)
    requires KeyedById(mm) && k in mm && mm[k].hasChildren && mm[k].childrenCount > 0
    requires mm[k].childrenInfo == Some(ChildrenInfo(mm[k].childrenCount, 0)) && to != Trash
    ensures var moved := Rewrite(mm, MoveTo([k], to, Some(Trash), true));
      && moved[k].childrenInfo == Some(ChildrenInfo(0, mm[k].childrenCount))
      && RestoreChildren(moved, [moved[k]], Trash)[k].childrenInfo == mm[k].childrenInfo
  {
    var moved := Rewrite(mm, MoveTo([k], to, Some(Trash), true));
    assert moved[k] == ApplyUpdate(MoveTo([k], to, Some(Trash), true), k, mm[k]);
    RestoreChildrenEffect(moved, [moved[k]], Trash);
    assert [moved[k]][0] == moved[k];
    assert RestoresParent([moved[k]], k);
  }

  /**
   * Thread repair on deleting drafts, as written: the parent of EVERY message
   * of the map (`Object.values(mailMap)`, in `order`) is shifted, not only the
   * parents of the deleted messages.
   */
  function DraftRepairAsWritten(mm: map<int, Mail>, order: seq<int>): (r: map<int, Mail>)
    requires Distinct(order) && Elems(order) == mm.Keys
    ensures r.Keys == mm.Keys
    ensures forall p :: p in mm && mm[p].childrenInfo.None? ==> r[p] == mm[p]
  {
    TrashLoneChildrenCount(mm, MovedMails(order, mm), Trash);
    TrashLoneChildren(mm, MovedMails(order, mm), Trash)
  }

  /**
   * Thread repair on deleting drafts, corrected: the parent of each deleted
   * message is shifted once per deleted reply.
   */
  function DraftRepair(mm: map<int, Mail>, deleted: seq<int>): (r: map<int, Mail>)
    ensures r.Keys == mm.Keys
    ensures forall p :: p in mm && mm[p].childrenInfo.None? ==> r[p] == mm[p]
  {
    TrashLoneChildrenCount(mm, MovedMails(deleted, mm), Trash);
    TrashLoneChildren(mm, MovedMails(deleted, mm), Trash)
  }

  /** A parent none of whose replies is among the deleted ids keeps its summary. */
  lemma DraftRepairOnlyDeletedParents(mm: map<int, Mail>, deleted: seq<int>, p: int)
    requires p in mm
    ensures var r := DraftRepair(mm, deleted);
      && r.Keys == mm.Keys
      && (ChildCount(MovedMails(deleted, mm), p) == 0 ==> r[p] == mm[p])
      && (mm[p].childrenInfo.Some? ==>
            r[p].childrenInfo == Some(Shift(mm[p].childrenInfo.value, ChildCount(MovedMails(deleted, mm), p))))
  {
    TrashLoneChildrenCount(mm, MovedMails(deleted, mm), Trash);
  }

  /**
   * The shape of the counterexample: a parent 1 with a summary of two replies
   * outside the trash, reply 2 in the inbox and reply 3 a draft.
   */
  predicate RepairExample(mm: map<int, Mail>) {
    && mm.Keys == {1, 2, 3}
    && mm[1].parent.None? && mm[1].childrenInfo == Some(ChildrenInfo(0, 2))
    && mm[2].parent == Some(1) && mm[2].folder == Inbox
    && mm[3].parent == Some(1) && mm[3].folder == Draft
  }

  lemma WithinExample(ks: set<int>)
    requires ks == {1, 2, 3}
    ensures Within([1, 2, 3], ks) == [1, 2, 3]
    ensures Within([3], ks) == [3]
  {
    assert Within([3], ks) == [3] + Within([], ks);
    assert [2, 3][1..] == [3];
    assert Within([2, 3], ks) == [2] + Within([3], ks);
    assert [1, 2, 3][1..] == [2, 3];
    assert Within([1, 2, 3], ks) == [1] + Within([2, 3], ks);
  }

  /**
   * Deleting only draft 3: the code as written walks every message of the map,
   * so parent 1 is shifted by both of its replies and reply 2, which stays,
   * is no longer counted outside the trash.
   */
  lemma DraftRepairAsWrittenCounterexample(mm: map<int, Mail>, order: seq<int>)
    requires RepairExample(mm) && order == [1, 2, 3]
    ensures 1 in DraftRepairAsWritten(mm, order)
    ensures DraftRepairAsWritten(mm, order)[1].childrenInfo == Some(ChildrenInfo(2, 0))
  {
    var n := ChildCount(MovedMails(order, mm), 1);
    assert n == 2 by { BothRepliesWalked(mm, order); }
    assert 1 in DraftRepairAsWritten(mm, order) && DraftRepairAsWritten(mm, order)[1].childrenInfo == Some(Shift(ChildrenInfo(0, 2), n)) by {
      ExampleOrder(mm, order);
      DraftRepairAsWrittenShifts(mm, order, 1);
    }
    assert Shift(ChildrenInfo(0, 2), 2) == ChildrenInfo(2, 0);
  }

  /**
   * As written, every cached parent with a summary is shifted once per reply
   * in the whole map, whichever messages were deleted.
   */
  lemma DraftRepairAsWrittenShifts(mm: map<int, Mail>, order: seq<int>, p: int)
    requires Distinct(order) && Elems(order) == mm.Keys
    requires p in mm && mm[p].childrenInfo.Some?
    ensures var r := DraftRepairAsWritten(mm, order);
      p in r && r[p].childrenInfo == Some(Shift(mm[p].childrenInfo.value, ChildCount(MovedMails(order, mm), p)))
  {
    TrashLoneChildrenCount(mm, MovedMails(order, mm), Trash);
  }

  /** `[1, 2, 3]` enumerates the example map. */
  lemma ExampleOrder(mm: map<int, Mail>, order: seq<int>)
    requires RepairExample(mm) && order == [1, 2, 3]
    ensures Distinct(order) && Elems(order) == mm.Keys
  {
    assert Elems(order) == {1, 2, 3} by {
      assert forall x :: x in order <==> x == 1 || x == 2 || x == 3;
    }
  }

  /** Walking the whole example map meets both replies of parent 1. */
  lemma BothRepliesWalked(mm: map<int, Mail>, order: seq<int>)
    requires RepairExample(mm) && order == [1, 2, 3]
    ensures ChildCount(MovedMails(order, mm), 1) == 2
  {
    WithinExample(mm.Keys);
    var all := MovedMails(order, mm);
    assert all == [mm[1], mm[2], mm[3]];
    assert all[..2][..1] == [mm[1]];
    assert [mm[1]][..0] == [];
    assert ChildCount([mm[1]], 1) == 0;
    assert ChildCount(all[..2], 1) == 1;
  }

  /** The corrected repair shifts parent 1 by the one deleted reply only. */
  lemma DraftRepairCorrectedExample(mm: map<int, Mail>)
    requires RepairExample(mm)
    ensures 1 in DraftRepair(mm, [3])
    ensures DraftRepair(mm, [3])[1].childrenInfo == Some(ChildrenInfo(1, 1))
  {
    WithinExample(mm.Keys);
    var one := MovedMails([3], mm);
    assert one == [mm[3]];
    assert ChildCount(one, 1) == 1 by {
      assert one[..0] == [];
    }
    TrashLoneChildrenCount(mm, one, Trash);
    var r := TrashLoneChildren(mm, one, Trash);
    assert r == DraftRepair(mm, [3]);
    assert r[1] == mm[1].(childrenInfo := Some(Shift(ChildrenInfo(0, 2), 1)));
    assert Shift(ChildrenInfo(0, 2), 1) == ChildrenInfo(1, 1);
  }
}
