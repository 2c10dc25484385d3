/** The rename dialog: it edits the name of one listed file or folder and
    asks the backend to move it to a key in the same folder. */
module RenameDialog {
  import opened Wrappers
  import opened Requests
  import opened FolderNames
  import BreadcrumbNav
  import FileList

  /** The item being renamed: a listed file, or a listed folder (the one
      that has a `prefix`). */
  datatype Item = FileEntry(file: FileList.FileItem) | FolderEntry(folder: FileList.FolderItem)

  function ItemName(item: Item): string
  {
    match item
    case FileEntry(f) => f.name
    case FolderEntry(f) => f.name
  }

  /** The body of the rename request. */
  datatype RenameRequest = RenameRequest(oldKey: string, newKey: string, isFolder: bool)

  const InvalidNameError: string := "Invalid name. Cannot be empty or contain slashes."
  const RenameFailed: string := "Failed to rename."

  /** The checks and key computations `handleRename` performs before it
      sends the request. */
  function PlanRename(item: Option<Item>, newName: string, currentPrefix: string): (r: Result<RenameRequest>)
    ensures r.Err? <==> item.None? || !IsValidName(newName)
    ensures r.Err? ==> r.message == InvalidNameError
    ensures r.Ok? ==> (r.value.isFolder <==> item.value.FolderEntry?)
    ensures r.Ok? && r.value.isFolder ==> r.value.oldKey == item.value.folder.prefix
    ensures r.Ok? && !r.value.isFolder ==> r.value.oldKey == item.value.file.key
    ensures r.Ok? ==> currentPrefix <= r.value.newKey
  {
    if item.None? || newName == "" || '/' in newName then Err(InvalidNameError)
    else
      var isFolder := item.value.FolderEntry?;
      var oldKey := if isFolder then item.value.folder.prefix else item.value.file.key;
      var newKey := if isFolder then currentPrefix + newName + "/" else currentPrefix + newName;
      Ok(RenameRequest(oldKey, newKey, isFolder))
  }

  /** The new key stays in the current folder: it is the current prefix
      followed by the new name, with a trailing `/` exactly for a folder, so
      a renamed file never ends in `/` and has no `/` after the prefix. */
  lemma NewKeyIsChild(item: Item, newName: string, currentPrefix: string)
    requires PlanRename(Some(item), newName, currentPrefix).Ok?
    ensures var req := PlanRename(Some(item), newName, currentPrefix).value;
      var rest := req.newKey[|currentPrefix|..];
      && (req.isFolder ==> rest == newName + "/" && req.newKey[|req.newKey| - 1] == '/')
      && (!req.isFolder ==> rest == newName && '/' !in rest && req.newKey[|req.newKey| - 1] != '/')
  {
    var req := PlanRename(Some(item), newName, currentPrefix).value;
    assert !req.isFolder ==> req.newKey[|req.newKey| - 1] == newName[|newName| - 1];
  }

  /** Below a prefix that is the root or ends in `/`, the new key, file or
      folder, has the breadcrumb segments of the current folder plus the new
      name. */
  lemma NewKeyIsOneLevelBelow(item: Item, newName: string, currentPrefix: string)
    requires currentPrefix == "" || currentPrefix[|currentPrefix| - 1] == '/'
    requires PlanRename(Some(item), newName, currentPrefix).Ok?
    ensures BreadcrumbNav.Segments(PlanRename(Some(item), newName, currentPrefix).value.newKey)
         == BreadcrumbNav.Segments(currentPrefix) + [newName]
  {
    ChildSegments(currentPrefix, newName);
  }

  /** A renamed folder under the root or under a folder prefix gets a
      folder prefix again. */
  lemma FolderKeyIsFolderPrefix(item: Item, newName: string, currentPrefix: string)
    requires currentPrefix == "" || BreadcrumbNav.IsFolderPrefix(currentPrefix)
    requires item.FolderEntry?
    requires PlanRename(Some(item), newName, currentPrefix).Ok?
    ensures BreadcrumbNav.IsFolderPrefix(PlanRename(Some(item), newName, currentPrefix).value.newKey)
  {
    ChildIsFolderPrefix(currentPrefix, newName);
  }

  /** The dialog's state: its props `item`, `isOpen` (owned by the page,
      changed through `onOpenChange`) and `currentPrefix`, and its own
      `newName` and `error`. */
  class Dialog {
    var item: Option<Item>
    var isOpen: bool
    var currentPrefix: string
    var newName: string
    var error: string

    /** Mounting: the state starts empty and the effect on `item` runs once. */
    constructor (item: Option<Item>, isOpen: bool, currentPrefix: string)
      ensures this.item == item && this.isOpen == isOpen && this.currentPrefix == currentPrefix
      ensures newName == (if item.Some? then ItemName(item.value) else "")
      ensures error == ""
    {
      this.item := item;
      this.isOpen := isOpen;
      this.currentPrefix := currentPrefix;
      newName := if item.Some? then ItemName(item.value) else "";
      error := "";
    }

    /** The effect on `item` firing, which React does when the parent
      passes a different `item` object (passing the same object again does
      not fire it): a non-null item re-initialises `newName`, and `null`
      leaves it alone. */
    method ReceiveItem(it: Option<Item>)
      modifies this
      ensures item == it
      ensures newName == (if it.Some? then ItemName(it.value) else old(newName))
      ensures error == old(error) && isOpen == old(isOpen) && currentPrefix == old(currentPrefix)
    {
      item := it;
      if it.Some? {
        newName := ItemName(it.value);
      }
    }

    /** Typing in the input. */
    method EditName(s: string)
      modifies this`newName
      ensures newName == s
    {
      newName := s;
    }

    /** `handleRename`, with the backend's answer given as `outcome`.
      Returns the request sent, if any, and whether `onSuccess` and
      `onOpenChange(false)` were called. An invalid name sends nothing and
      sets the error; a valid one clears the error, sends the request, and
      then either closes the dialog or shows the failure. The caller is
      assumed to answer `onOpenChange(false)` by clearing `isOpen`. */
    method Rename(outcome: Outcome) returns (sent: Option<RenameRequest>, notified: bool)
      modifies this`error, this`isOpen
      ensures var plan := PlanRename(old(item), old(newName), old(currentPrefix));
        && sent == (if plan.Ok? then Some(plan.value) else None)
        && (notified <==> plan.Ok? && outcome.Accepted?)
        && (plan.Err? ==> error == InvalidNameError && isOpen == old(isOpen))
        && (plan.Ok? && outcome.Accepted? ==> error == "" && !isOpen)
        && (plan.Ok? && !outcome.Accepted? ==>
              error == ErrorMessage(outcome, RenameFailed) && isOpen == old(isOpen))
    {
      var plan := PlanRename(item, newName, currentPrefix);
      if plan.Err? {
        error := plan.message;
        return None, false;
      }
      error := "";
      sent := Some(plan.value);

      if outcome.Accepted? {
        notified := true;
        isOpen := false;
      } else {
        notified := false;
        error := ErrorMessage(outcome, RenameFailed);
      }
    }
  }
}
