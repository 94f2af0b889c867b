/** Worked examples of the reconciliation cases on small concrete states. */
module MailScenarios {
  import opened Collections
  import opened MailModel
  import opened MailMerge
  import opened MailView
  import opened MailUpdates
  import opened MailFolders

  function Plain(id: int, folder: Folder, parent: Option<int>): Mail {
    Mail(id, folder, parent, false, false, None, false, 0, None, false, 0, false)
  }

  function Page(ids: seq<int>, total: nat): FolderInfo {
    FolderInfo(ids, total, false, false, None)
  }

  /**
   * Inbox caches [5, 4, 3] of 10 with a page limit of 3; a new message 6 with
   * no parent makes it [6, 5, 4] of 11, the oldest id falling off the page.
   */
  lemma NewMessageScenario(fm: FolderMap, m: Mail)
    requires Inbox in fm && fm[Inbox] == Page([5, 4, 3], 10)
    requires m.id == 6 && m.folder == Inbox && m.parent.None?
    ensures UpsertFolders(m, fm, 3)[Inbox] == Page([6, 5, 4], 11)
  {
    NewMailOnTop(m, fm, 3);
    assert [6] + [5, 4, 3] == [6, 5, 4, 3];
    assert Truncate([6, 5, 4, 3], 3) == [6, 5, 4];
  }

  /** A reply 7 to the cached message 5 leaves the inbox page [5, 4, 3] of 10 as it is. */
  lemma ReplyScenario(fm: FolderMap, m: Mail)
    requires Inbox in fm && fm[Inbox] == Page([5, 4, 3], 10)
    requires m.id == 7 && m.folder == Inbox && m.parent == Some(5)
    ensures UpsertFolders(m, fm, 3)[Inbox] == Page([5, 4, 3], 10)
  {
    var page := fm[Inbox].mails;
    assert Without(page, {5}) == [4, 3] by {
      assert page[1..] == [4, 3];
      assert Without(page, {5}) == Without([4, 3], {5});
      WithoutAbsent([4, 3], {5});
    }
    assert Truncate([5] + [4, 3], 3) == page;
    ReplyMovesThreadUp(m, fm, 3);
  }

  /** Deleting 4 from drafts [5, 4, 3] of 10 leaves [5, 3] of 9, marked dirty. */
  lemma DeleteDraftScenario()
    ensures DeleteAll(map[Draft := Page([5, 4, 3], 10)], [4], DeleteTargets)[Draft] == FolderInfo([5, 3], 9, true, false, None)
  {
    var fm := map[Draft := Page([5, 4, 3], 10)];
    DeleteEffects(fm, [4]);
    assert Elems([4]) == {4};
    assert Without([5, 4, 3], {4}) == [5, 3];
  }

  /**
   * Marking 3 read while Unread ([5, 4, 3] of 3) is current leaves [5, 4] of 2;
   * with the inbox current, Unread is only marked dirty.
   */
  lemma ReadScenario()
    ensures var fm := map[Unread := Page([5, 4, 3], 3), Inbox := Page([5, 4, 3], 10)];
      ListedFolder(fm, Some(Unread), Unread, [3], true)[Unread] == Page([5, 4], 2)
    ensures var fm := map[Unread := Page([5, 4, 3], 3), Inbox := Page([5, 4, 3], 10)];
      ListedFolder(fm, Some(Inbox), Unread, [3], true)[Unread] == Page([5, 4, 3], 3).(isDirty := true)
  {
    assert Elems([3]) == {3};
    assert Without([5, 4, 3], {3}) == [5, 4];
  }
}
