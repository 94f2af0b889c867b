/**
 * The mail store and the reducer cases that reconcile it: each case is a
 * method that updates the store's fields in place, specified by the
 * folder-map and message-map functions of `MailFolders` and `MailUpdates`.
 */
module MailReducer {
  import opened Collections
  import opened MailModel
  import opened MailMerge
  import opened MailSort
  import opened MailView
  import opened MailUpdates
  import opened MailFolders

  /**
   * The folder-map steps of `GET_MAILS_SUCCESS`: the fetched folder (merging a
   * pushed batch with the id-merging loop), then the Unread and All-mails folders.
   */
  method FetchFolderMap(p: Fetched, fm: FolderMap) returns (r: FolderMap)
    ensures r == FetchFolders(p, fm)
  {
    r := fm;
    if !p.fromSocket || p.folder in r {
      var ids: seq<int>;
      var notFirst: bool;
      if p.fromSocket {
        var prev := r[p.folder];
        if !prev.isNotFirstPage {
          ids := FilterAndMergeMailIDs(p.mails, prev.mails, p.limit, false);
        } else {
          ids := prev.mails;
        }
        notFirst := prev.isNotFirstPage;
      } else {
        ids := IdsOf(p.mails);
        notFirst := p.isNotFirstPage;
      }
      r := r[p.folder := FolderInfo(ids, p.total, false, notFirst, p.offset)];
    }
    r := MergeSatellite(p, r, Unread, true);
    r := MergeSatellite(p, r, AllEmails, false);
  }

  /**
   * The folder-map steps of `MOVE_MAIL_SUCCESS`: the source, the target, then
   * the loop marking every other folder dirty.
   */
  method MoveFolderMap(p: Moved, fm: FolderMap, mm: map<int, Mail>, limit: int, cur: Option<Folder>) returns (r: FolderMap)
    ensures r == MoveFolders(p, fm, mm, limit, cur)
  {
    r := AfterSource(p, fm);
    r := AfterTarget(p, r, mm, limit);
    r := MarkDirty(r, MoveKeep(p, cur));
  }

  /** The loop over the moved (or deleted) records repairing their parents' summaries. */
  method TrashIncomes(mm: map<int, Mail>, incomes: seq<Mail>, target: Folder) returns (r: map<int, Mail>)
    ensures r == TrashLoneChildren(mm, incomes, target)
  {
    r := mm;
    for i := 0 to |incomes|
      invariant r == TrashLoneChildren(mm, incomes[..i], target)
    {
      assert incomes[..i + 1][..i] == incomes[..i] && incomes[..i + 1][i] == incomes[i];
      assert TrashLoneChildren(mm, incomes[..i + 1], target) == TrashOne(r, incomes[i], target);
      r := TrashOne(r, incomes[i], target);
    }
    assert incomes[..|incomes|] == incomes;
  }

  /** The loop over the restored records of an undo, repairing their parents' summaries. */
  method RestoreAll(mm: map<int, Mail>, restored: seq<Mail>, source: Folder) returns (r: map<int, Mail>)
    ensures r == RestoreChildren(mm, restored, source)
  {
    r := mm;
    for i := 0 to |restored|
      invariant r == RestoreChildren(mm, restored[..i], source)
    {
      assert restored[..i + 1][..i] == restored[..i];
      r := RestoreOne(r, restored[i], source);
    }
    assert restored[..|restored|] == restored;
  }

  /** The message-map steps of `UPDATE_CURRENT_FOLDER`: the upsert, then the loop adopting the reply. */
  method UpsertMail(newMail: Mail, isUpdate: bool, mm: map<int, Mail>) returns (r: map<int, Mail>)
    ensures r == UpsertMailMap(newMail, isUpdate, mm)
  {
    r := UpdateMailMap(mm, [newMail]);
    if newMail.parent.Some? && !isUpdate {
      r := RewriteAll(r, AdoptChild(newMail.parent.value));
    }
  }

  /** The current folder's list and total after a read or star change, as `Listed`. */
  method ListCurrent(s: FolderInfo, ids: seq<int>, active: bool) returns (t: FolderInfo)
    ensures t == Listed(s, ids, active)
  {
    var kept, removed := RemoveListed(s.mails, ids, active);
    var total := if active then ClampedSub(s.total, removed) else s.total;
    assert total == if active then ClampedSub(s.total, |s.mails| - |kept|) else s.total;
    t := s.(mails := kept, total := total);
  }

  /**
   * The folder-map steps of the read and star cases on their folder `f`: only
   * marked dirty when not current, otherwise filtered with the counting loop.
   */
  method ListFolderMap(fm: FolderMap, cur: Option<Folder>, f: Folder, ids: seq<int>, active: bool) returns (r: FolderMap)
    requires cur == Some(f) ==> f in fm
    ensures r == ListedFolder(fm, cur, f, ids, active)
  {
    if cur != Some(f) {
      r := if f in fm then fm[f := fm[f].(isDirty := true)] else fm;
      assert r == ListedFolder(fm, cur, f, ids, active);
    } else {
      var s := ListCurrent(fm[f], ids, active);
      r := fm[f := s];
    }
  }

  /** The loop of a delete over the draft, trash and spam folders. */
  method DeleteFromTargets(fm: FolderMap, ids: seq<int>) returns (r: FolderMap)
    ensures r == DeleteAll(fm, ids, DeleteTargets)
  {
    r := fm;
    for i := 0 to |DeleteTargets|
      invariant r == DeleteAll(fm, ids, DeleteTargets[..i])
    {
      assert DeleteTargets[..i + 1][..i] == DeleteTargets[..i];
      var key := DeleteTargets[i];
      if key in r {
        var s := r[key];
        r := r[key := s.(mails := Without(s.mails, Elems(ids)), total := if s.total > 0 then s.total - 1 else 0, isDirty := true)];
      }
    }
    assert DeleteTargets[..|DeleteTargets|] == DeleteTargets;
  }

  /**
   * `MailState`, restricted to what the modelled cases read or write. `mails`
   * is the display list of the current folder and `totalMailCount` its total.
   */
  class MailStore {
    var mailMap: map<int, Mail>
    var folderMap: FolderMap
    var currentFolder: Option<Folder>
    var pageLimit: int
    var mails: seq<Mail>
    var totalMailCount: nat
    var loaded: bool
    var inProgress: bool
    var isMailsMoved: bool

    /** The message map is keyed by each message's id. */
    ghost predicate Valid()
      reads this
    {
      KeyedById(mailMap)
    }

    /** The reducer's initial state: empty maps, no folder, a page limit of 20. */
    constructor ()
      ensures Valid()
      ensures mailMap == map[] && folderMap == map[] && currentFolder == None
      ensures pageLimit == 20 && mails == [] && totalMailCount == 0
      ensures !loaded && !inProgress && !isMailsMoved
    {
      mailMap := map[];
      folderMap := map[];
      currentFolder := None;
      pageLimit := 20;
      mails := [];
      totalMailCount := 0;
      loaded := false;
      inProgress := false;
      isMailsMoved := false;
    }

    /** The display list and total of the current folder, recomputed from the maps. */
    method ShowCurrent()
      modifies this
      ensures mails == PrepareMails(currentFolder, folderMap, mailMap)
      ensures totalMailCount == CurrentTotal(currentFolder, folderMap)
      ensures mailMap == old(mailMap) && folderMap == old(folderMap) && currentFolder == old(currentFolder)
      ensures pageLimit == old(pageLimit) && loaded == old(loaded) && inProgress == old(inProgress)
      ensures isMailsMoved == old(isMailsMoved)
    {
      ShowView();
      ShowTotal();
    }

    /** `prepareMails` on the current folder. */
    method ShowView()
      modifies this
      ensures mails == PrepareMails(currentFolder, folderMap, mailMap)
      ensures totalMailCount == old(totalMailCount)
      ensures mailMap == old(mailMap) && folderMap == old(folderMap) && currentFolder == old(currentFolder)
      ensures pageLimit == old(pageLimit) && loaded == old(loaded) && inProgress == old(inProgress)
      ensures isMailsMoved == old(isMailsMoved)
    {
      mails := PrepareMails(currentFolder, folderMap, mailMap);
    }

    /** The shown total: the current folder's cached total, 0 when it is not cached. */
    method ShowTotal()
      modifies this
      ensures totalMailCount == CurrentTotal(currentFolder, folderMap)
      ensures mails == old(mails)
      ensures mailMap == old(mailMap) && folderMap == old(folderMap) && currentFolder == old(currentFolder)
      ensures pageLimit == old(pageLimit) && loaded == old(loaded) && inProgress == old(inProgress)
      ensures isMailsMoved == old(isMailsMoved)
    {
      totalMailCount := CurrentTotal(currentFolder, folderMap);
    }


    /** `GET_MAILS_SUCCESS`. */
    method GetMailsSuccess(p: Fetched)
      requires Valid()
      modifies this
      ensures Valid()
      ensures mailMap == UpdateMailMap(old(mailMap), p.mails)
      ensures folderMap == FetchFolders(p, old(folderMap))
      ensures mails == PrepareMails(currentFolder, folderMap, mailMap)
      ensures totalMailCount == CurrentTotal(currentFolder, folderMap)
      ensures currentFolder == old(currentFolder) && pageLimit == p.limit
      ensures loaded && !inProgress && isMailsMoved == old(isMailsMoved)
    {
      var fm := FetchFolderMap(p, folderMap);
      mailMap, folderMap := UpdateMailMap(mailMap, p.mails), fm;
      ShowCurrent();
      pageLimit, loaded, inProgress := p.limit, true, false;
    }

    /** `MOVE_MAIL`: a move is under way. */
    method MoveMail()
      modifies this
      ensures inProgress && !isMailsMoved
      ensures mailMap == old(mailMap) && folderMap == old(folderMap) && mails == old(mails)
      ensures currentFolder == old(currentFolder) && totalMailCount == old(totalMailCount)
      ensures pageLimit == old(pageLimit) && loaded == old(loaded)
    {
      inProgress := true;
      isMailsMoved := false;
    }

    /** `REVERT_MAILS_MOVED`. */
    method RevertMailsMoved()
      modifies this
      ensures !isMailsMoved
      ensures mailMap == old(mailMap) && folderMap == old(folderMap) && mails == old(mails)
      ensures currentFolder == old(currentFolder) && totalMailCount == old(totalMailCount)
      ensures pageLimit == old(pageLimit) && loaded == old(loaded) && inProgress == old(inProgress)
    {
      isMailsMoved := false;
    }

    /** `MOVE_MAIL_SUCCESS`, for a store with no open detail view. */
    method MoveMailSuccess(p: Moved)
      requires Valid()
      modifies this
      ensures Valid()
      ensures folderMap == MoveFolders(p, old(folderMap), old(mailMap), old(pageLimit), old(currentFolder))
      ensures mailMap == MovedMailMap(p, old(mailMap))
      ensures mails == PrepareMails(currentFolder, folderMap, mailMap)
      ensures totalMailCount == CurrentTotal(currentFolder, folderMap)
      ensures currentFolder == old(currentFolder) && pageLimit == old(pageLimit) && loaded == old(loaded)
      ensures !inProgress && isMailsMoved
    {
      var fm := MoveFolderMap(p, folderMap, mailMap, pageLimit, currentFolder);
      var mm := RewriteAll(mailMap, MoveTo(p.ids, p.target, p.source, p.withChildren));
      TrashLoneChildrenKeyed(mm, p.incomes, p.target);
      mm := TrashIncomes(mm, p.incomes, p.target);
      folderMap := fm;
      mailMap := mm;
      ShowCurrent();
      inProgress := false;
      isMailsMoved := true;
    }

    /** `UNDO_DELETE_MAIL_SUCCESS`, for a store with no open detail view. */
    method UndoDeleteMailSuccess(p: Undone)
      requires Valid()
      modifies this
      ensures Valid()
      ensures folderMap == UndoFolders(p, old(folderMap), old(mailMap), old(pageLimit))
      ensures mailMap == RestoreChildren(old(mailMap), p.mails, p.source)
      ensures Some(p.source) == currentFolder ==>
        mails == PrepareMails(currentFolder, folderMap, mailMap) && totalMailCount == CurrentTotal(currentFolder, folderMap)
      ensures Some(p.source) != currentFolder ==> mails == old(mails) && totalMailCount == old(totalMailCount)
      ensures currentFolder == old(currentFolder) && pageLimit == old(pageLimit) && loaded == old(loaded)
      ensures inProgress == old(inProgress) && isMailsMoved == old(isMailsMoved)
    {
      var fm := UndoFolders(p, folderMap, mailMap, pageLimit);
      RestoreChildrenKeyed(mailMap, p.mails, p.source);
      var mm := RestoreAll(mailMap, p.mails, p.source);
      folderMap := fm;
      mailMap := mm;
      if Some(p.source) == currentFolder {
        ShowCurrent();
      }
    }

    /**
     * `READ_MAIL_SUCCESS`, for a store with no open detail view. The source
     * reads the Unread folder's state unguarded when it is current.
     */
    method ReadMailSuccess(ids: seq<int>, read: bool)
      requires Valid() && (currentFolder == Some(Unread) ==> Unread in folderMap)
      modifies this
      ensures Valid()
      ensures mailMap == Rewrite(old(mailMap), SetRead(ids, read))
      ensures folderMap == ListedFolder(old(folderMap), old(currentFolder), Unread, ids, read)
      ensures mails == PrepareMails(currentFolder, folderMap, mailMap)
      ensures totalMailCount == CurrentTotal(currentFolder, folderMap)
      ensures currentFolder == old(currentFolder) && pageLimit == old(pageLimit) && loaded == old(loaded)
      ensures !inProgress && isMailsMoved == old(isMailsMoved)
    {
      var mm := RewriteAll(mailMap, SetRead(ids, read));
      var fm := ListFolderMap(folderMap, currentFolder, Unread, ids, read);
      mailMap, folderMap := mm, fm;
      ShowCurrent();
      inProgress := false;
    }

    /**
     * `STAR_MAIL_SUCCESS`, for a store with no open detail view. The source
     * reads the Starred folder's state unguarded when it is current.
     */
    method StarMailSuccess(ids: seq<int>, starred: bool, withChildren: bool)
      requires Valid() && (currentFolder == Some(Starred) ==> Starred in folderMap)
      modifies this
      ensures Valid()
      ensures mailMap == Rewrite(old(mailMap), SetStarred(ids, starred, withChildren))
      ensures folderMap == ListedFolder(old(folderMap), old(currentFolder), Starred, ids, !starred)
      ensures mails == PrepareMails(currentFolder, folderMap, mailMap)
      ensures totalMailCount == CurrentTotal(currentFolder, folderMap)
      ensures currentFolder == old(currentFolder) && pageLimit == old(pageLimit) && loaded == old(loaded)
      ensures !inProgress && isMailsMoved == old(isMailsMoved)
    {
      var mm := RewriteAll(mailMap, SetStarred(ids, starred, withChildren));
      var fm := ListFolderMap(folderMap, currentFolder, Starred, ids, !starred);
      mailMap, folderMap := mm, fm;
      ShowCurrent();
      inProgress := false;
    }

    /**
     * `DELETE_MAIL_SUCCESS` and `DELETE_MAIL_FOR_ALL_SUCCESS`, for a store with
     * no open detail view; deleting drafts repairs the summaries of the deleted
     * replies' parents (`DraftRepair`).
     */
    method DeleteMailSuccess(ids: seq<int>, folder: Folder)
      requires Valid()
      modifies this
      ensures Valid()
      ensures folderMap == DeleteAll(old(folderMap), ids, DeleteTargets)
      ensures mailMap == if folder == Draft then DraftRepair(old(mailMap), ids) else old(mailMap)
      ensures mails == PrepareMails(currentFolder, folderMap, mailMap)
      ensures totalMailCount == CurrentTotal(currentFolder, folderMap)
      ensures currentFolder == old(currentFolder) && pageLimit == old(pageLimit) && loaded == old(loaded)
      ensures !inProgress && isMailsMoved == old(isMailsMoved)
    {
      var fm := DeleteFromTargets(folderMap, ids);
      if folder == Draft {
        var deleted := MovedMails(ids, mailMap);
        TrashLoneChildrenKeyed(mailMap, deleted, Trash);
        var mm := TrashIncomes(mailMap, deleted, Trash);
        mailMap := mm;
      }
      folderMap := fm;
      ShowCurrent();
      inProgress := false;
    }

    /** `UPDATE_CURRENT_FOLDER`: one message stored (and adopted by its parent when new). */
    method UpdateCurrentFolder(newMail: Mail, isUpdate: bool)
      requires Valid()
      modifies this
      ensures Valid()
      ensures mailMap == UpsertMailMap(newMail, isUpdate, old(mailMap))
      ensures folderMap == UpsertFolders(newMail, old(folderMap), old(pageLimit))
      ensures mails == PrepareMails(currentFolder, folderMap, mailMap)
      ensures totalMailCount == if currentFolder.Some? then CurrentTotal(currentFolder, folderMap) else old(totalMailCount)
      ensures currentFolder == old(currentFolder) && pageLimit == old(pageLimit) && loaded == old(loaded)
      ensures inProgress == old(inProgress) && isMailsMoved == old(isMailsMoved)
    {
      var mm := UpsertMail(newMail, isUpdate, mailMap);
      var fm := UpsertFolders(newMail, folderMap, pageLimit);
      mailMap, folderMap := mm, fm;
      ShowView();
      if currentFolder.Some? {
        ShowTotal();
      }
    }

    /** `EMPTY_FOLDER_SUCCESS`: the folder's cache entry is dropped and the display list cleared. */
    method EmptyFolderSuccess(folder: Folder)
      modifies this
      ensures folderMap == EmptyFolders(old(folderMap), folder)
      ensures mails == [] && !inProgress
      ensures mailMap == old(mailMap) && currentFolder == old(currentFolder) && totalMailCount == old(totalMailCount)
      ensures pageLimit == old(pageLimit) && loaded == old(loaded) && isMailsMoved == old(isMailsMoved)
    {
      if folder in folderMap {
        folderMap := folderMap - {folder};
      }
      mails := [];
      inProgress := false;
    }

    /** `EMPTY_ONLY_FOLDER`: the folder's cache entry is dropped, the display list kept. */
    method EmptyOnlyFolder(folder: Folder)
      modifies this
      ensures folderMap == EmptyFolders(old(folderMap), folder)
      ensures !inProgress
      ensures mailMap == old(mailMap) && currentFolder == old(currentFolder) && mails == old(mails)
      ensures totalMailCount == old(totalMailCount) && pageLimit == old(pageLimit) && loaded == old(loaded)
      ensures isMailsMoved == old(isMailsMoved)
    {
      if folder in folderMap {
        folderMap := folderMap - {folder};
      }
      inProgress := false;
    }

    /**
     * `SET_CURRENT_FOLDER`: the folder becomes current and every selection mark
     * is cleared. The source clears the marks on the very records it has just
     * put in the display list, so the list shows them cleared too.
     */
    method SetCurrentFolder(folder: Folder)
      requires Valid()
      modifies this
      ensures Valid()
      ensures currentFolder == Some(folder)
      ensures mailMap == Rewrite(old(mailMap), Unmark)
      ensures mails == PrepareMails(currentFolder, folderMap, mailMap)
      ensures totalMailCount == CurrentTotal(currentFolder, folderMap)
      ensures folderMap == old(folderMap) && pageLimit == old(pageLimit) && loaded == old(loaded)
      ensures inProgress == old(inProgress) && isMailsMoved == old(isMailsMoved)
    {
      mailMap := RewriteAll(mailMap, Unmark);
      currentFolder := Some(folder);
      ShowCurrent();
    }
  }
}
