/** The records the mail store keeps: messages, folder pages and folder names. */
module MailModel {
  import opened Collections

  /** `MailFolderType`, plus the user's own folders. */
  datatype Folder =
    | Inbox | Sent | Trash | Draft | Outbox | Spam | Starred | Unread | AllEmails
    | Custom(name: string)

  /** `children_folder_info`: how many replies of a thread sit in the trash and how many do not. */
  datatype ChildrenInfo = ChildrenInfo(trashChildren: nat, nonTrashChildren: nat)

  /**
   * The fields of a message the reducer reads or writes. `parent` and `updated`
   * are optional as on the wire; `threadCount` is the `thread_count` filled in
   * for display and `marked` the selection checkbox.
   */
  datatype Mail = Mail(
    id: int,
    folder: Folder,
    parent: Option<int>,
    read: bool,
    starred: bool,
    updated: Option<int>,
    hasChildren: bool,
    childrenCount: nat,
    childrenInfo: Option<ChildrenInfo>,
    hasStarredChildren: bool,
    threadCount: nat,
    marked: bool)

  /**
   * `FolderState`: the cached page of a folder. `mails` is the ordered id list,
   * `total` the server's count of messages in the folder, `isDirty` says the
   * page must be refetched before it is shown.
   */
  datatype FolderInfo = FolderInfo(
    mails: seq<int>,
    total: nat,
    isDirty: bool,
    isNotFirstPage: bool,
    offset: Option<int>)

  /** The message map is keyed by each message's own id. */
  predicate KeyedById(mm: map<int, Mail>) {
    forall k :: k in mm ==> mm[k].id == k
  }

  /** `a >= b ? a - b : 0`: the reducer's counters are floored at zero. */
  function ClampedSub(a: nat, b: nat): (r: nat)
    ensures r <= a
    ensures a >= b ==> r + b == a
    ensures a < b ==> r == 0
  {
    if a >= b then a - b else 0
  }
}
