/** `prepareMails`: the display list of a folder, with each thread's count filled in. */
module MailView {
  import opened Collections
  import opened MailModel

  /**
   * `thread_count` of a message with a children summary: a trash view counts the
   * thread's replies in the trash, any other view the replies outside it, and the
   * message itself counts once more when it lies on the same side as the view.
   */
  function ThreadCount(view: Folder, m: Mail, info: ChildrenInfo): (r: nat)
    ensures r == (if view == Trash then info.trashChildren else info.nonTrashChildren)
                 + (if (view == Trash) == (m.folder == Trash) then 1 else 0)
  {
    if view == Trash && m.folder == Trash then info.trashChildren + 1
    else if view == Trash && m.folder != Trash then info.trashChildren
    else if view != Trash && m.folder != Trash then info.nonTrashChildren + 1
    else info.nonTrashChildren
  }

  /**
   * One display record: `thread_count` is set only when the summary is
   * present; every other field is the stored record's.
   */
  function Prepared(view: Folder, m: Mail): (r: Mail)
    ensures r == m.(threadCount := r.threadCount)
    ensures m.childrenInfo.None? ==> r == m
  {
    if m.childrenInfo.Some? then m.(threadCount := ThreadCount(view, m, m.childrenInfo.value)) else m
  }

  /** The records of the listed ids that the message map knows, in list order. */
  function PrepareList(view: Folder, ids: seq<int>, mm: map<int, Mail>): (r: seq<Mail>)
    ensures |r| == |Within(ids, mm.Keys)|
    ensures forall i :: 0 <= i < |r| ==> r[i] == Prepared(view, mm[Within(ids, mm.Keys)[i]])
  {
    if ids == [] then []
    else
      var present := Within(ids, mm.Keys);
      var rest := PrepareList(view, ids[1..], mm);
      if ids[0] in mm then
        assert present == [ids[0]] + Within(ids[1..], mm.Keys);
        [Prepared(view, mm[ids[0]])] + rest
      else
        assert present == Within(ids[1..], mm.Keys);
        rest
  }

  /**
   * `prepareMails`: nothing for a folder that is not cached (or no folder at
   * all); otherwise one prepared record per cached id found in the message map,
   * ids missing from the map skipped.
   */
  function PrepareMails(folder: Option<Folder>, fm: map<Folder, FolderInfo>, mm: map<int, Mail>): (r: seq<Mail>)
    ensures folder.None? || folder.value !in fm ==> r == []
    ensures folder.Some? && folder.value in fm ==>
      var present := Within(fm[folder.value].mails, mm.Keys);
      |r| == |present| && forall i :: 0 <= i < |r| ==> r[i] == Prepared(folder.value, mm[present[i]])
  {
    if folder.Some? && folder.value in fm then PrepareList(folder.value, fm[folder.value].mails, mm) else []
  }

  /**
   * The display list shows exactly the cached ids the message map knows, in
   * folder order, and each record is the stored one with its key as id.
   */
  lemma {:induction false} PrepareListIds(view: Folder, ids: seq<int>, mm: map<int, Mail>)
    requires KeyedById(mm)
    ensures var r := PrepareList(view, ids, mm);
      forall i :: 0 <= i < |r| ==> r[i].id == Within(ids, mm.Keys)[i] && r[i].id in ids
  {
    var r := PrepareList(view, ids, mm);
    var present := Within(ids, mm.Keys);
    forall i | 0 <= i < |r|
      ensures r[i].id == present[i] && r[i].id in ids
    {
      assert present[i] in present;
    }
  }
}
