/**
 * How the reducer cases rewrite the folder map: one function per case, giving
 * the new map from the old one, and the loops the cases run over folders.
 */
module MailFolders {
  import opened Collections
  import opened MailModel
  import opened MailMerge
  import opened MailSort
  import opened MailUpdates
  import opened MailView

  type FolderMap = map<Folder, FolderInfo>

  function OptSet(o: Option<Folder>): set<Folder> {
    if o.Some? then {o.value} else {}
  }

  /** The total shown for the current folder: its cached total, or 0. */
  function CurrentTotal(cur: Option<Folder>, fm: FolderMap): nat {
    if cur.Some? && cur.value in fm then fm[cur.value].total else 0
  }

  // ---------------------------------------------------------------- fetch

  /**
   * A `GET_MAILS_SUCCESS` payload. `total` is the `total_mail_count` sent
   * (0 when absent), `limit` the page limit of the request.
   */
  datatype Fetched = Fetched(
    folder: Folder, mails: seq<Mail>, limit: int, fromSocket: bool,
    total: nat, isNotFirstPage: bool, offset: Option<int>)

  /**
   * The new state of the fetched folder. A direct fetch replaces the list by
   * the batch ids in server order; a push merges into the cached first page
   * and leaves a later page's list alone.
   */
  function FetchTarget(p: Fetched, fm: FolderMap): (r: FolderInfo)
    requires !p.fromSocket || p.folder in fm
    ensures r.total == p.total && !r.isDirty && r.offset == p.offset
    ensures !p.fromSocket ==>
      |r.mails| == |p.mails| && (forall i :: 0 <= i < |p.mails| ==> r.mails[i] == p.mails[i].id)
      && r.isNotFirstPage == p.isNotFirstPage
    ensures p.fromSocket ==> r.isNotFirstPage == fm[p.folder].isNotFirstPage
    ensures p.fromSocket && fm[p.folder].isNotFirstPage ==> r.mails == fm[p.folder].mails
    ensures p.fromSocket && !fm[p.folder].isNotFirstPage && |fm[p.folder].mails| > 0 && p.limit >= 0 ==>
      |r.mails| <= p.limit
  {
    if p.fromSocket then
      var prev := fm[p.folder];
      var ids := if !prev.isNotFirstPage then MergeIds(p.mails, prev.mails, p.limit, false, true) else prev.mails;
      FolderInfo(ids, p.total, false, prev.isNotFirstPage, p.offset)
    else
      FolderInfo(IdsOf(p.mails), p.total, false, p.isNotFirstPage, p.offset)
  }

  /**
   * A pushed batch is also merged into the cached Unread (unread mails only)
   * and All-mails folders, unless it was for that folder or for spam.
   */
  function MergeSatellite(p: Fetched, fm: FolderMap, sat: Folder, checkUnread: bool): (r: FolderMap)
    ensures r.Keys == fm.Keys
    ensures forall f :: f in fm && f != sat ==> r[f] == fm[f]
    ensures sat in fm ==> r[sat] == fm[sat].(mails := r[sat].mails, total := r[sat].total)
    ensures !(p.fromSocket && p.folder != sat && p.folder != Spam) ==> r == fm
  {
    if p.fromSocket && p.folder != sat && p.folder != Spam && sat in fm then
      var prev := fm[sat];
      var b := GetUpdatesFolderMap(p.mails, prev, p.limit, checkUnread, true);
      fm[sat := prev.(mails := b.mails, total := b.total)]
    else fm
  }

  /** The folder map after `GET_MAILS_SUCCESS`. */
  function FetchFolders(p: Fetched, fm: FolderMap): FolderMap {
    var fm1 := if !p.fromSocket || p.folder in fm then fm[p.folder := FetchTarget(p, fm)] else fm;
    MergeSatellite(p, MergeSatellite(p, fm1, Unread, true), AllEmails, false)
  }

  /** A satellite merge touches only the satellite folder. */
  lemma SatelliteEffects(p: Fetched, fm: FolderMap, sat: Folder, checkUnread: bool)
    ensures var r := MergeSatellite(p, fm, sat, checkUnread);
      && r.Keys == fm.Keys
      && (forall f :: f in fm && f != sat ==> r[f] == fm[f])
      && (!p.fromSocket ==> r == fm)
      && (p.fromSocket && p.folder != sat && p.folder != Spam && sat in fm ==>
            var b := GetUpdatesFolderMap(p.mails, fm[sat], p.limit, checkUnread, true);
            r[sat] == fm[sat].(mails := b.mails, total := b.total))
  {
  }

  /** A direct fetch installs the batch ids in server order, clean, with the server's total. */
  lemma FetchDirect(p: Fetched, fm: FolderMap)
    requires !p.fromSocket
    ensures var r := FetchFolders(p, fm);
      && r == fm[p.folder := FolderInfo(IdsOf(p.mails), p.total, false, p.isNotFirstPage, p.offset)]
  {
    var fm1 := fm[p.folder := FetchTarget(p, fm)];
    SatelliteEffects(p, fm1, Unread, true);
    SatelliteEffects(p, MergeSatellite(p, fm1, Unread, true), AllEmails, false);
  }

  /**
   * A pushed batch merges into the cached first page of its folder (cut to the
   * page limit), leaves a later page's list alone, and takes the server's
   * total; it changes no folder other than its own, Unread and All-mails, and
   * adds none.
   */
  lemma FetchPushTarget(p: Fetched, fm: FolderMap)
    requires p.fromSocket
    ensures var r := FetchFolders(p, fm);
      && r.Keys == fm.Keys
      && (p.folder in fm && !fm[p.folder].isNotFirstPage ==>
            && r[p.folder].mails == MergeIds(p.mails, fm[p.folder].mails, p.limit, false, true)
            && (|fm[p.folder].mails| > 0 && p.limit >= 0 ==> |r[p.folder].mails| <= p.limit)
            && !r[p.folder].isDirty && r[p.folder].total == p.total)
      && (p.folder in fm && fm[p.folder].isNotFirstPage ==> r[p.folder].mails == fm[p.folder].mails)
      && (forall f :: f in fm && f != p.folder && f != Unread && f != AllEmails ==> r[f] == fm[f])
  {
    var fm1 := if p.folder in fm then fm[p.folder := FetchTarget(p, fm)] else fm;
    var fm2 := MergeSatellite(p, fm1, Unread, true);
    SatelliteEffects(p, fm1, Unread, true);
    SatelliteEffects(p, fm2, AllEmails, false);
    if p.folder in fm && p.folder != Unread && p.folder != AllEmails {
      assert FetchFolders(p, fm)[p.folder] == fm1[p.folder];
    }
    if p.folder == Unread && p.folder in fm {
      assert fm2[p.folder] == fm1[p.folder];
    }
  }

  /**
   * A pushed batch for another folder (not spam) also merges into the cached
   * Unread page, unread messages only, and into the cached All-mails page.
   */
  lemma FetchPushSatellites(p: Fetched, fm: FolderMap)
    requires p.fromSocket
    ensures var r := FetchFolders(p, fm);
      && (p.folder != Unread && p.folder != Spam && Unread in fm ==>
            var b := GetUpdatesFolderMap(p.mails, fm[Unread], p.limit, true, true);
            r[Unread] == fm[Unread].(mails := b.mails, total := b.total))
      && (p.folder != AllEmails && p.folder != Spam && AllEmails in fm ==>
            var b := GetUpdatesFolderMap(p.mails, fm[AllEmails], p.limit, false, true);
            r[AllEmails] == fm[AllEmails].(mails := b.mails, total := b.total))
  {
    var fm1 := if p.folder in fm then fm[p.folder := FetchTarget(p, fm)] else fm;
    var fm2 := MergeSatellite(p, fm1, Unread, true);
    SatelliteEffects(p, fm1, Unread, true);
    SatelliteEffects(p, fm2, AllEmails, false);
  }

  /** Re-applying the same direct fetch changes nothing (folder map and message map). */
  lemma FetchIdempotent(p: Fetched, fm: FolderMap, mm: map<int, Mail>)
    requires !p.fromSocket
    ensures FetchFolders(p, FetchFolders(p, fm)) == FetchFolders(p, fm)
    ensures UpdateMailMap(UpdateMailMap(mm, p.mails), p.mails) == UpdateMailMap(mm, p.mails)
  {
    assert FetchFolders(p, FetchFolders(p, fm)) == FetchFolders(p, fm) by {
      FetchDirect(p, fm);
      FetchDirect(p, FetchFolders(p, fm));
    }
    UpdateMailMapIdempotent(mm, p.mails);
  }

  // ---------------------------------------------------------------- move

  /** A `MOVE_MAIL_SUCCESS` payload; `incomes` are the moved message records sent along. */
  datatype Moved = Moved(
    ids: seq<int>, target: Folder, source: Option<Folder>, withChildren: bool, incomes: seq<Mail>)

  /** The source folder, when cached, loses the moved ids and that many from its total. */
  function AfterSource(p: Moved, fm: FolderMap): (r: FolderMap)
    ensures r.Keys == fm.Keys
  {
    if p.source.Some? && p.source.value in fm then
      var s := fm[p.source.value];
      fm[p.source.value := s.(mails := Without(s.mails, Elems(p.ids)), total := ClampedSub(s.total, |p.ids|))]
    else fm
  }

  /** The target folder merges the moved records it knows, then re-sorts newest first. */
  function MoveTarget(p: Moved, t: FolderInfo, mm: map<int, Mail>, limit: int): (r: FolderInfo)
    ensures multiset(r.mails) == multiset(Within(GetUpdatesFolderMap(MovedMails(p.ids, mm), t, limit, false, true).mails, mm.Keys))
    ensures NewestFirst(r.mails, mm)
    ensures r == t.(mails := r.mails, total := r.total)
  {
    var b := GetUpdatesFolderMap(MovedMails(p.ids, mm), t, limit, false, true);
    t.(mails := SortByDueDateWithID(b.mails, mm), total := b.total)
  }

  /** The target folder, when cached, after `MoveTarget`. */
  function AfterTarget(p: Moved, fm: FolderMap, mm: map<int, Mail>, limit: int): (r: FolderMap)
    ensures r.Keys == fm.Keys
  {
    if p.target in fm then fm[p.target := MoveTarget(p, fm[p.target], mm, limit)] else fm
  }

  /** Every folder outside `keep` is emptied and marked dirty. */
  function MarkOthersDirty(fm: FolderMap, keep: set<Folder>): (r: FolderMap)
    ensures r.Keys == fm.Keys
  {
    map f | f in fm :: if f in keep then fm[f] else fm[f].(isDirty := true, mails := [])
  }

  /** The loop over the folder keys outside `keep`. */
  method MarkDirty(fm: FolderMap, keep: set<Folder>) returns (r: FolderMap)
    ensures r == MarkOthersDirty(fm, keep)
  {
    r := fm;
    var keys := fm.Keys - keep;
    while keys != {}
      invariant keys <= fm.Keys - keep && r.Keys == fm.Keys
      invariant forall f :: f in fm ==> r[f] == if f in keep || f in keys then fm[f] else fm[f].(isDirty := true, mails := [])
      decreases keys
    {
      if forall x :: x !in keys {
        assert false;
      }
      var key :| key in keys;
      r := r[key := r[key].(isDirty := true, mails := [])];
      keys := keys - {key};
    }
  }

  /** The folders a move leaves alone: the target, the source and the current one. */
  function MoveKeep(p: Moved, cur: Option<Folder>): set<Folder> {
    {p.target} + OptSet(p.source) + OptSet(cur)
  }

  /** The folder map after `MOVE_MAIL_SUCCESS`. */
  function MoveFolders(p: Moved, fm: FolderMap, mm: map<int, Mail>, limit: int, cur: Option<Folder>): (r: FolderMap)
    ensures r.Keys == fm.Keys
  {
    MarkOthersDirty(AfterTarget(p, AfterSource(p, fm), mm, limit), MoveKeep(p, cur))
  }

  /** The message map after `MOVE_MAIL_SUCCESS`. */
  function MovedMailMap(p: Moved, mm: map<int, Mail>): (r: map<int, Mail>)
    ensures r.Keys == mm.Keys
    ensures KeyedById(mm) ==> KeyedById(r)
    ensures p.target != Trash ==> r == Rewrite(mm, MoveTo(p.ids, p.target, p.source, p.withChildren))
  {
    var moved := Rewrite(mm, MoveTo(p.ids, p.target, p.source, p.withChildren));
    TrashLoneChildrenCount(moved, p.incomes, p.target);
    TrashLoneChildren(moved, p.incomes, p.target)
  }

  /**
   * Move, source folder: when cached (and not also the target) it loses every
   * moved id, keeping the rest in order, and its total drops by the number of
   * ids, floored at zero.
   */
  lemma MoveSource(p: Moved, fm: FolderMap, mm: map<int, Mail>, limit: int, cur: Option<Folder>)
    requires p.source.Some? && p.source.value in fm && p.source.value != p.target
    ensures var r := MoveFolders(p, fm, mm, limit, cur);
      var s := fm[p.source.value];
      && r[p.source.value].mails == Without(s.mails, Elems(p.ids))
      && (forall x :: x in r[p.source.value].mails ==> x !in p.ids)
      && r[p.source.value].total == ClampedSub(s.total, |p.ids|)
      && r[p.source.value] == s.(mails := r[p.source.value].mails, total := r[p.source.value].total)
  {
    var fm1 := AfterSource(p, fm);
    var fm2 := AfterTarget(p, fm1, mm, limit);
    assert fm2[p.source.value] == fm1[p.source.value];
    assert p.source.value in MoveKeep(p, cur);
  }

  /**
   * Move, target folder: when cached it holds the merge of the moved records
   * it knows into its list (after the source step), sorted newest first, with
   * the merged total.
   */
  lemma MoveTargetEffects(p: Moved, fm: FolderMap, mm: map<int, Mail>, limit: int, cur: Option<Folder>)
    requires p.target in fm
    ensures var r := MoveFolders(p, fm, mm, limit, cur);
      var t := AfterSource(p, fm)[p.target];
      var merged := MergeIds(MovedMails(p.ids, mm), t.mails, limit, false, true);
      && NewestFirst(r[p.target].mails, mm)
      && multiset(r[p.target].mails) == multiset(Within(merged, mm.Keys))
      && r[p.target].total == GetUpdatesFolderMap(MovedMails(p.ids, mm), t, limit, false, true).total
      && r[p.target] == t.(mails := r[p.target].mails, total := r[p.target].total)
  {
    var fm1 := AfterSource(p, fm);
    var fm2 := AfterTarget(p, fm1, mm, limit);
    assert fm2[p.target] == MoveTarget(p, fm1[p.target], mm, limit);
    assert p.target in MoveKeep(p, cur);
    assert MoveFolders(p, fm, mm, limit, cur)[p.target] == fm2[p.target];
  }

  /**
   * Move, other folders: every cached folder but the source, the target and
   * the current one is emptied and marked dirty, its total kept; the current
   * folder, when neither source nor target, is left as it was.
   */
  lemma MoveOthers(p: Moved, fm: FolderMap, mm: map<int, Mail>, limit: int, cur: Option<Folder>, f: Folder)
    requires f in fm && f != p.target && Some(f) != p.source
    ensures var r := MoveFolders(p, fm, mm, limit, cur);
      && (Some(f) != cur ==> r[f] == fm[f].(isDirty := true, mails := []))
      && (Some(f) == cur ==> r[f] == fm[f])
  {
    var fm2 := AfterTarget(p, AfterSource(p, fm), mm, limit);
    assert fm2[f] == fm[f];
    assert f in MoveKeep(p, cur) <==> Some(f) == cur;
  }

  /**
   * Move effects on the message map: each moved record is in the target
   * folder, and thread summaries follow `MoveRecords` and then
   * `TrashLoneChildrenCount`; the map stays keyed by id.
   */
  lemma MovedMailEffects(p: Moved, mm: map<int, Mail>, k: int)
    requires KeyedById(mm) && k in mm
    ensures var r := MovedMailMap(p, mm);
      && KeyedById(r) && r.Keys == mm.Keys
      && (k in p.ids ==> r[k].folder == p.target)
      && (k !in p.ids && p.target != Trash ==> r[k] == mm[k])
  {
    var r1 := Rewrite(mm, MoveTo(p.ids, p.target, p.source, p.withChildren));
    MoveRecords(mm, p.ids, p.target, p.source, p.withChildren, k);
    TrashLoneChildrenCount(r1, p.incomes, p.target);
    TrashLoneChildrenKeyed(r1, p.incomes, p.target);
  }

  // ---------------------------------------------------------------- undo

  /**
   * An `UNDO_DELETE_MAIL_SUCCESS` payload: the messages go back from `folder`
   * to `source`.
   */
  datatype Undone = Undone(folder: Folder, source: Folder, mails: seq<Mail>)

  /**
   * The folder map after an undo: the source receives the merged list re-sorted
   * newest first, as a fresh first page (dirty flag, page flag and offset
   * dropped); the folder they had been moved to is emptied and dirty.
   */
  function UndoFolders(p: Undone, fm: FolderMap, mm: map<int, Mail>, limit: int): (r: FolderMap)
    ensures r.Keys == fm.Keys
  {
    var fm1 := if p.source in fm then
        var b := GetUpdatesFolderMap(p.mails, fm[p.source], limit, false, true);
        fm[p.source := FolderInfo(SortByDueDateWithID(b.mails, mm), b.total, false, false, None)]
      else fm;
    if p.folder in fm1 then fm1[p.folder := fm1[p.folder].(mails := [], isDirty := true)] else fm1
  }

  lemma UndoFolderEffects(p: Undone, fm: FolderMap, mm: map<int, Mail>, limit: int)
    ensures var r := UndoFolders(p, fm, mm, limit);
      && (p.source in fm && p.source != p.folder ==>
            var merged := MergeIds(p.mails, fm[p.source].mails, limit, false, true);
            && NewestFirst(r[p.source].mails, mm)
            && multiset(r[p.source].mails) == multiset(Within(merged, mm.Keys))
            && r[p.source].total == GetUpdatesFolderMap(p.mails, fm[p.source], limit, false, true).total
            && !r[p.source].isDirty && !r[p.source].isNotFirstPage)
      && (p.folder in fm ==> r[p.folder].mails == [] && r[p.folder].isDirty)
      && (forall f :: f in fm && f != p.source && f != p.folder ==> r[f] == fm[f])
  {
    var r := UndoFolders(p, fm, mm, limit);
    if p.source in fm && p.source != p.folder {
      var b := GetUpdatesFolderMap(p.mails, fm[p.source], limit, false, true);
      assert r[p.source] == FolderInfo(SortByDueDateWithID(b.mails, mm), b.total, false, false, None);
    }
  }

  // ---------------------------------------------------------------- read and star

  /**
   * The filter with a counter: with `active`, drop the listed ids and count
   * them; otherwise keep everything.
   */
  method RemoveListed(mails: seq<int>, ids: seq<int>, active: bool) returns (kept: seq<int>, removed: nat)
    ensures kept == if active then Without(mails, Elems(ids)) else mails
    ensures removed + |kept| == |mails|
  {
    kept := [];
    removed := 0;
    for i := 0 to |mails|
      invariant kept == if active then Without(mails[..i], Elems(ids)) else mails[..i]
      invariant removed + |kept| == i
    {
      var x := mails[i];
      assert mails[..i + 1] == mails[..i] + [x];
      if active {
        WithoutSnoc(mails[..i], x, Elems(ids));
      }
      if x in ids && active {
        assert x in Elems(ids);
        removed := removed + 1;
      } else {
        assert active ==> x !in Elems(ids);
        kept := kept + [x];
      }
    }
    assert mails[..|mails|] == mails;
  }

  /**
   * Read (folder Unread, active when marking read) and star (folder Starred,
   * active when unstarring): when the folder is not current it is only marked
   * dirty; when it is current the affected ids leave its list and its total
   * drops by their number, floored at zero. The source reads the current
   * folder's state unguarded, so the current folder must be cached.
   */
  function ListedFolder(fm: FolderMap, cur: Option<Folder>, f: Folder, ids: seq<int>, active: bool): (r: FolderMap)
    requires cur == Some(f) ==> f in fm
    ensures r.Keys == fm.Keys
  {
    if cur != Some(f) then
      if f in fm then fm[f := fm[f].(isDirty := true)] else fm
    else
      fm[f := Listed(fm[f], ids, active)]
  }

  /** The current folder after a read or star change: when active, the ids leave it and its total drops by their number. */
  function Listed(s: FolderInfo, ids: seq<int>, active: bool): (r: FolderInfo)
    ensures forall x :: x in r.mails <==> x in s.mails && !(active && x in ids)
    ensures r == s.(mails := r.mails, total := r.total) && r.total <= s.total
    ensures !active ==> r == s
  {
    var kept := if active then Without(s.mails, Elems(ids)) else s.mails;
    s.(mails := kept, total := if active then ClampedSub(s.total, |s.mails| - |kept|) else s.total)
  }

  lemma ListedFolderEffects(fm: FolderMap, cur: Option<Folder>, f: Folder, ids: seq<int>, active: bool)
    requires cur == Some(f) ==> f in fm
    ensures var r := ListedFolder(fm, cur, f, ids, active);
      && (forall g :: g in fm && g != f ==> r[g] == fm[g])
      && (cur != Some(f) && f in fm ==> r[f] == fm[f].(isDirty := true))
      && (cur == Some(f) && !active ==> r == fm)
      && (cur == Some(f) && active ==>
            && (forall x :: x in r[f].mails <==> x in fm[f].mails && x !in ids)
            && r[f].total == ClampedSub(fm[f].total, |Within(fm[f].mails, Elems(ids))|)
            && r[f].isDirty == fm[f].isDirty)
  {
    if cur == Some(f) && active {
      SplitCount(fm[f].mails, Elems(ids));
    }
  }

  // ---------------------------------------------------------------- delete

  /** The folders a delete cleans: drafts, trash and spam, in that order. */
  const DeleteTargets: seq<Folder> := [Draft, Trash, Spam]

  /** One cached folder drops the deleted ids, loses one from its total and is marked dirty. */
  function DeleteFrom(fm: FolderMap, f: Folder, ids: seq<int>): (r: FolderMap)
    ensures r.Keys == fm.Keys
  {
    if f in fm then fm[f := Deleted(fm[f], ids)] else fm
  }

  function Deleted(s: FolderInfo, ids: seq<int>): (r: FolderInfo)
    ensures forall x :: x in r.mails <==> x in s.mails && x !in ids
    ensures r.isDirty && r == s.(mails := r.mails, total := r.total, isDirty := true)
    ensures r.total == if s.total > 0 then s.total - 1 else 0
  {
    s.(mails := Without(s.mails, Elems(ids)), total := if s.total > 0 then s.total - 1 else 0, isDirty := true)
  }

  function DeleteAll(fm: FolderMap, ids: seq<int>, keys: seq<Folder>): (r: FolderMap)
    ensures r.Keys == fm.Keys
  {
    if keys == [] then fm else DeleteFrom(DeleteAll(fm, ids, keys[..|keys| - 1]), keys[|keys| - 1], ids)
  }

  /**
   * Delete effects: each cached draft, trash and spam folder loses the deleted
   * ids, is marked dirty, and its total drops by exactly one (floored at zero)
   * however many ids were deleted; no other folder changes.
   */
  lemma DeleteEffects(fm: FolderMap, ids: seq<int>)
    ensures var r := DeleteAll(fm, ids, DeleteTargets);
      && (forall f :: f in fm && f in DeleteTargets ==>
            r[f] == fm[f].(mails := Without(fm[f].mails, Elems(ids)), total := ClampedSub(fm[f].total, 1), isDirty := true))
      && (forall f :: f in fm && f !in DeleteTargets ==> r[f] == fm[f])
  {
    DeleteAllEffects(fm, ids, DeleteTargets);
  }

  /** Cleaning a list of distinct folders cleans each cached one once and leaves the rest. */
  lemma {:induction false} DeleteAllEffects(fm: FolderMap, ids: seq<int>, keys: seq<Folder>)
    requires forall i, j :: 0 <= i < j < |keys| ==> keys[i] != keys[j]
    ensures var r := DeleteAll(fm, ids, keys);
      && (forall f :: f in fm && f in keys ==> r[f] == Deleted(fm[f], ids))
      && (forall f :: f in fm && f !in keys ==> r[f] == fm[f])
    decreases |keys|
  {
    if keys != [] {
      var n := |keys| - 1;
      DeleteAllEffects(fm, ids, keys[..n]);
      forall f | f in keys
        ensures f == keys[n] || f in keys[..n]
      {
        var i :| 0 <= i < |keys| && keys[i] == f;
        if i < n { assert keys[..n][i] == f; }
      }
      assert keys[n] !in keys[..n];
    }
  }


  // ---------------------------------------------------------------- update current folder

  /**
   * `UPDATE_CURRENT_FOLDER`: a message's folder, when cached with a non-empty
   * list, merges the message in and becomes a fresh first page.
   */
  function UpsertFolders(newMail: Mail, fm: FolderMap, limit: int): (r: FolderMap)
    ensures r.Keys == fm.Keys
  {
    var f := newMail.folder;
    if f in fm && |fm[f].mails| > 0 then
      var b := GetUpdatesFolderMap([newMail], fm[f], limit, false, true);
      fm[f := FolderInfo(b.mails, b.total, false, false, None)]
    else fm
  }

  /** The message map after storing the message, with its parent adopting it when it is new. */
  function UpsertMailMap(newMail: Mail, isUpdate: bool, mm: map<int, Mail>): (r: map<int, Mail>)
    ensures KeyedById(mm) ==> KeyedById(r)
    ensures r.Keys == mm.Keys + {newMail.id}
  {
    var mm1 := UpdateMailMap(mm, [newMail]);
    assert IdSet([newMail]) == {newMail.id};
    if newMail.parent.Some? && !isUpdate then Rewrite(mm1, AdoptChild(newMail.parent.value)) else mm1
  }

  /**
   * Storing a new reply to a cached parent outside the trash counts it in the
   * parent's thread: one more child, and one more in the thread count any
   * view outside the trash shows.
   */
  lemma ReplyGrowsThread(reply: Mail, mm: map<int, Mail>, view: Folder)
    requires KeyedById(mm) && reply.parent.Some? && reply.parent.value in mm && reply.parent.value != reply.id
    requires view != Trash && mm[reply.parent.value].folder != Trash && mm[reply.parent.value].childrenInfo.Some?
    ensures var p := reply.parent.value;
      var after := UpsertMailMap(reply, false, mm);
      && after[p].childrenCount == mm[p].childrenCount + 1
      && Prepared(view, after[p]).threadCount == Prepared(view, mm[p]).threadCount + 1
  {
    var p := reply.parent.value;
    var mm1 := UpdateMailMap(mm, [reply]);
    assert IdSet([reply]) == {reply.id};
    assert mm1[p] == mm[p];
    AdoptRecords(mm1, p, p);
  }

  /**
   * A new message that does not continue a cached thread goes on top of its
   * folder's page (cut to the limit) and adds one to the total.
   */
  lemma NewMailOnTop(newMail: Mail, fm: FolderMap, limit: int)
    requires newMail.folder in fm && |fm[newMail.folder].mails| > 0
    requires newMail.id !in fm[newMail.folder].mails
    requires newMail.parent.None? || newMail.parent.value !in fm[newMail.folder].mails
    ensures var r := UpsertFolders(newMail, fm, limit)[newMail.folder];
      r == FolderInfo(Truncate([newMail.id] + fm[newMail.folder].mails, limit), fm[newMail.folder].total + 1, false, false, None)
  {
    var st := fm[newMail.folder];
    SingleMerge(newMail, st);
  }

  /**
   * A new reply to a thread on the cached page moves the thread to the top,
   * in place of the reply, and leaves the total unchanged.
   */
  lemma ReplyMovesThreadUp(newMail: Mail, fm: FolderMap, limit: int)
    requires newMail.folder in fm && |fm[newMail.folder].mails| > 0
    requires newMail.id !in fm[newMail.folder].mails
    requires newMail.parent.Some? && newMail.parent.value in fm[newMail.folder].mails
    ensures var p := newMail.parent.value;
      var r := UpsertFolders(newMail, fm, limit)[newMail.folder];
      r == FolderInfo(Truncate([p] + Without(fm[newMail.folder].mails, {p}), limit), fm[newMail.folder].total, false, false, None)
  {
    var st := fm[newMail.folder];
    SingleMerge(newMail, st);
  }

  /** Merging a single new message, case by case. */
  lemma SingleMerge(m: Mail, st: FolderInfo)
    requires |st.mails| > 0 && m.id !in st.mails
    ensures var c := Merge([m], st.mails, false, true);
      && Within(st.mails, Elems(BatchIds([m], false))) == []
      && (m.parent.Some? && m.parent.value in st.mails ==>
            c == Collapsed([m.parent.value], Without(st.mails, {m.parent.value}), [m.parent.value]))
      && (!(m.parent.Some? && m.parent.value in st.mails) ==> c == Collapsed([m.id], st.mails, []))
  {
    var ids := BatchIds([m], false);
    assert ids == [m.id] by {
      assert IdsOf([m]) == [m.id] + IdsOf([]);
    }
    assert Elems(ids) == {m.id};
    WithoutAbsent(st.mails, {m.id});
    var batch := BatchMap([m]);
    assert batch[m.id] == m by {
      assert LastWithId([m], 0);
      BatchMapLatest([m], 0);
    }
    var acc := Collapsed([], st.mails, []);
    var step := CollapseStep(batch, acc, m.id);
    assert Merge([m], st.mails, false, true) == CollapseThreads(ids[1..], batch, step);
    assert ids[1..] == [];
    WithinAbsent(st.mails, {m.id});
  }

  // ---------------------------------------------------------------- empty

  /** `EMPTY_FOLDER_SUCCESS` / `EMPTY_ONLY_FOLDER`: the folder's cache entry is dropped. */
  function EmptyFolders(fm: FolderMap, folder: Folder): (r: FolderMap)
    ensures r.Keys == fm.Keys - {folder}
    ensures forall f :: f in r ==> r[f] == fm[f]
  {
    fm - {folder}
  }
}
