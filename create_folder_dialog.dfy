/** The "Create Folder" dialog: it checks the typed name and asks the
    backend to create a folder of that name under the current prefix. */
module CreateFolderDialog {
  import opened Wrappers
  import opened Requests
  import opened FolderNames

  /** The body of the create request. */
  datatype CreateFolderRequest = CreateFolderRequest(folderName: string, prefix: string)

  const InvalidFolderNameError: string := "Invalid folder name. Cannot be empty or contain slashes."
  const CreateFailed: string := "Failed to create folder."

  /** The check `handleCreate` performs, and the request it would send. */
  function PlanCreate(folderName: string, currentPrefix: string): (r: Result<CreateFolderRequest>)
    ensures r.Err? <==> !IsValidName(folderName)
    ensures r.Err? ==> r.message == InvalidFolderNameError
    ensures r.Ok? ==> r.value.folderName == folderName && r.value.prefix == currentPrefix
  {
    if folderName == "" || '/' in folderName then Err(InvalidFolderNameError)
    else Ok(CreateFolderRequest(folderName, currentPrefix))
  }

  /** The dialog's state: the `currentPrefix` prop and its own `folderName`,
      `error` and `isOpen`. */
  class Dialog {
    var currentPrefix: string
    var folderName: string
    var error: string
    var isOpen: bool

    constructor (currentPrefix: string)
      ensures this.currentPrefix == currentPrefix
      ensures folderName == "" && error == "" && !isOpen
    {
      this.currentPrefix := currentPrefix;
      folderName, error, isOpen := "", "", false;
    }

    /** The dialog's `onOpenChange` is `setIsOpen`: opening or cancelling
      keeps the typed name and the last error. */
    method SetOpen(open: bool)
      modifies this`isOpen
      ensures isOpen == open
    {
      isOpen := open;
    }

    /** Typing in the input. */
    method EditName(s: string)
      modifies this`folderName
      ensures folderName == s
    {
      folderName := s;
    }

    /** `handleCreate`, with the backend's answer given as `outcome`.
      Returns the request sent, if any, and whether `onSuccess` was
      called. An invalid name sends nothing and
      sets the error; a valid one clears the error and sends the request;
      on success the dialog closes and the name is reset, on failure the
      error is shown and the dialog stays open with the typed name. */
    method Create(outcome: Outcome) returns (sent: Option<CreateFolderRequest>, notified: bool)
      modifies this`error, this`isOpen, this`folderName
      ensures var plan := PlanCreate(old(folderName), old(currentPrefix));
        && sent == (if plan.Ok? then Some(plan.value) else None)
        && (notified <==> plan.Ok? && outcome.Accepted?)
        && (plan.Err? ==>
              error == InvalidFolderNameError
              && isOpen == old(isOpen) && folderName == old(folderName))
        && (plan.Ok? && outcome.Accepted? ==> error == "" && !isOpen && folderName == "")
        && (plan.Ok? && !outcome.Accepted? ==>
              error == ErrorMessage(outcome, CreateFailed)
              && isOpen == old(isOpen) && folderName == old(folderName))
    {
      var plan := PlanCreate(folderName, currentPrefix);
      if plan.Err? {
        error := plan.message;
        return None, false;
      }
      error := "";
      sent := Some(plan.value);

      if outcome.Accepted? {
        notified := true;
        isOpen := false;
        folderName := "";
      } else {
        notified := false;
        error := ErrorMessage(outcome, CreateFailed);
      }
    }
  }
}
