# bucketboard front end, modelled in Dafny

bucketboard is a web file browser for an object-storage bucket. Keys are
flat strings, and "folders" are key prefixes that end in `/`. This project
models the browser-side logic of its front end:

- **Breadcrumb bar** (`BreadcrumbNav`). The current prefix is cut into its
  non-empty `/`-separated segments. A home button leads to the bucket root.
  Every segment except the last is a link to the prefix made of the
  segments up to it.
- **Rename dialog** (`RenameDialog`) and **create-folder dialog**
  (`CreateFolderDialog`). Each checks the typed name (non-empty, no `/`),
  builds the request it sends, and updates its `error`, `isOpen` and name
  state as the backend answers.
- **File-type icons** (`Utils`, and the local copy in `FileList`). The
  lowercased text after the last `.` of a file name selects one of seven
  icon families. The two tables differ only on `webp`.
- **The two listing tables**. `FileList` is the browsing table: an up-row
  below the root, then the folders, then the files. `SimpleFileList` is the
  plain table: folders, then files.
- **Tag editor** (`PropertiesPanel`). It loads a file's tags, edits the
  list (add, remove at an index, set one field at an index) and saves the
  whole list back.
- **Upload dialog** (`UploadDialog`). Dropped files become entries with a
  progress value and a status (pending, uploading, success, error). Each
  upload moves its own entry along. The Upload button is enabled or
  disabled from the statuses.
- **Plugin registry** (`PluginRegistry`). An append-only list of plugins,
  and a query that concatenates what they contribute at one point of the
  interface, in registration order.

Shared modules: `Wrappers` (`Option`, `Result`), `Strings` (the JavaScript
`split`, `join`, `filter(Boolean)` and `toLowerCase` the components use),
`Requests` (how a `fetch` can end, and the message the `catch` blocks keep)
and `FolderNames` (the name check both dialogs apply).

Pure code is modelled as functions with lemmas. Component state is
modelled as classes whose methods state their whole new state: the dialogs,
the panel, the upload list and the registry. The browser never reaches the
network in the model. Every backend answer (a `fetch` result, an XHR
`onload`/`onerror` with its progress events) is a parameter of the handler
that waits for it.

## Model

| member | source | states |
|---|---|---|
| Strings.Split | frontend/src/lib/utils.tsx:22 | `split` always yields at least one piece, so `pop()` always has a piece to return |
| Strings.SplitPiecesWithoutSep | frontend/src/lib/utils.tsx:22 | no piece of a `split` contains the separator |
| Strings.Join | frontend/src/components/BreadcrumbNav.tsx:12 | `join` starts its result with the first piece; with JoinSplit and SplitJoin it is the inverse of `split` |
| Strings.NonEmpty | frontend/src/components/BreadcrumbNav.tsx:9 | `filter(Boolean)` keeps only non-empty strings taken from the list, never more of them than the list has |
| Strings.Lower | frontend/src/lib/utils.tsx:22 | `toLowerCase` keeps the length of the string |
| BreadcrumbNav.Segments | frontend/src/components/BreadcrumbNav.tsx:9 | every segment is non-empty and contains no `/` |
| BreadcrumbNav.NavigationTarget | frontend/src/components/BreadcrumbNav.tsx:11-12 | the prefix a link opens is never empty and ends in `/` |
| BreadcrumbNav.Crumbs | frontend/src/components/BreadcrumbNav.tsx:18-29 | the home button first, then one entry per segment; the last entry is the last segment as plain text |
| BreadcrumbNav.ClickTarget | frontend/src/components/BreadcrumbNav.tsx:18-27 | every entry but the plain-text one is clickable; home opens the root |
| BreadcrumbNav.RootShowsOnlyHome | frontend/src/components/BreadcrumbNav.tsx:9-22 | the empty prefix has no segments, so the bar is the home button alone |
| BreadcrumbNav.SegmentsAtSlash | frontend/src/components/BreadcrumbNav.tsx:9 | the segments of `x/y` are the segments of `x` followed by those of `y`, in order |
| BreadcrumbNav.SegmentsTrailingSlash | frontend/src/components/BreadcrumbNav.tsx:9 | a trailing `/` adds no segment |
| BreadcrumbNav.SegmentsOfName | frontend/src/components/BreadcrumbNav.tsx:9 | a name without `/` is one segment, or none when it is empty |
| BreadcrumbNav.SegmentsOfJoined | frontend/src/components/BreadcrumbNav.tsx:9-12 | joining valid segments with `/` and adding `/` gives a prefix whose segments are exactly those |
| BreadcrumbNav.FolderPrefixRoundTrip | frontend/src/components/BreadcrumbNav.tsx:9-12 | for a prefix with no empty segment that ends in `/`, joining its segments with `/` and adding `/` gives the prefix back |
| BreadcrumbNav.TargetIsAncestor | frontend/src/components/BreadcrumbNav.tsx:11-12 | the prefix the link at index i opens ends in `/` and has exactly segments 0..i |
| BreadcrumbNav.TargetsNested | frontend/src/components/BreadcrumbNav.tsx:12 | the target of link i+1 is the target of link i followed by segment i+1 and `/` |
| BreadcrumbNav.TargetIsStringPrefix | frontend/src/components/BreadcrumbNav.tsx:9-12 | every link target of a folder prefix is a string prefix of it |
| BreadcrumbNav.CrumbsShape | frontend/src/components/BreadcrumbNav.tsx:18-27 | one entry per segment after home; entry k is a link iff k is not the last segment; the last is plain text; home opens `""` |
| BreadcrumbNav.ClickTruncates | frontend/src/components/BreadcrumbNav.tsx:11-27 | the bar drawn for the prefix link k passes to `onNavigate` is the first k+1 entries, with segment k as plain text |
| Utils.IconForExtension | frontend/src/lib/utils.tsx:23-48 | no extension longer than four characters gets a family icon; IconTable gives the whole table |
| Utils.GetFileIcon | frontend/src/lib/utils.tsx:21-22 | a name without `.` is classified by the whole name, lowercased |
| Utils.Extension | frontend/src/lib/utils.tsx:22 | the extension contains no `.` |
| Utils.IconTable | frontend/src/lib/utils.tsx:23-48 | each family is chosen exactly for its listed extensions, `webp` among the images; every other extension is generic |
| Utils.ExtensionWithoutDot | frontend/src/lib/utils.tsx:22 | a name without `.` is its own extension, lowercased |
| Utils.ExtensionAfterLastDot | frontend/src/lib/utils.tsx:22 | the extension of `base.ext` is `ext` lowercased, whatever `base` holds |
| Utils.ExtensionOfLower | frontend/src/lib/utils.tsx:22 | lowercasing the name first does not change its extension |
| Utils.ExtensionIgnoresCase | frontend/src/lib/utils.tsx:22 | names that agree when lowercased have the same extension |
| Utils.GetFileIconIgnoresCase | frontend/src/lib/utils.tsx:21-22 | names that differ only in letter case get the same icon |
| Utils.OnlyLastExtensionCounts | frontend/src/lib/utils.tsx:22-47 | `a.png.txt` is generic |
| Utils.UpperCaseExtension | frontend/src/lib/utils.tsx:22-30 | `photo.JPG` is an image |
| Utils.TrailingDotIsGeneric | frontend/src/lib/utils.tsx:22-47 | a trailing `.` leaves the empty extension, which is generic |
| FileList.IconForExtension | frontend/src/components/FileList.tsx:49-73 | no extension longer than four characters gets a family icon; IconTable gives the whole table |
| FileList.GetFileIcon | frontend/src/components/FileList.tsx:47-48 | a name without `.` is classified by the whole name, lowercased |
| FileList.IconTable | frontend/src/components/FileList.tsx:49-73 | the same families as the shared table, without `webp` among the images; all else generic |
| FileList.TablesDifferOnlyOnWebp | frontend/src/components/FileList.tsx:49-73 | the local table agrees with the shared one on every extension except `webp` |
| FileList.WebpIconsDiffer | frontend/src/components/FileList.tsx:47-74 | a `.webp` file is an image for the shared helper and generic in this table |
| FileList.GetFileIconIgnoresCase | frontend/src/components/FileList.tsx:48 | the local lookup is case-insensitive too |
| FileList.Rows | frontend/src/components/FileList.tsx:95-120 | one row per folder and per file, plus the up-row below the root |
| FileList.Render | frontend/src/components/FileList.tsx:76-123 | a table is shown only for present items, holds Rows, and is never empty |
| FileList.OnClick | frontend/src/components/FileList.tsx:96-119 | only the up-row navigates up; a folder row opens its own prefix iff it has an `onClick`; file rows have none |
| FileList.FolderRows | frontend/src/components/FileList.tsx:104-111 | one row per folder, in order, with its name and prefix, each with its `onClick` |
| FileList.FileRows | frontend/src/components/FileList.tsx:112-119 | one row per file |
| FileList.EmptyMessageIff | frontend/src/components/FileList.tsx:77-83 | the empty message shows iff items are missing, or there are no folders, no files and the prefix is empty; an empty sub-folder shows the up-row alone |
| FileList.UpRowIff | frontend/src/components/FileList.tsx:96-103 | the row count is up-row + folders + files; an up-row is present iff the prefix is non-empty, and then it is first |
| FileList.FolderRowAt | frontend/src/components/FileList.tsx:104-111 | folder i has the row after the up-row and the folders before it, and clicking it opens exactly that folder's prefix |
| FileList.FileRowAt | frontend/src/components/FileList.tsx:112-119 | file i has the row after all folder rows and the files before it, with its icon; it is not clickable |
| FileList.RowsOrdered | frontend/src/components/FileList.tsx:95-120 | the up-row comes first, folder rows next, file rows last |
| SimpleFileList.PlainFolderRows | frontend/src/components/file-list.tsx:89-96 | one row per folder, none of them clickable |
| SimpleFileList.Render | frontend/src/components/file-list.tsx:69-108 | a table is shown only for present items, has one row per folder and per file, is never empty, and no row of it can be clicked |
| SimpleFileList.EmptyMessageIff | frontend/src/components/file-list.tsx:70-76 | the empty message shows iff items are missing or there are no folders and no files; no prefix is considered |
| SimpleFileList.RowAt | frontend/src/components/file-list.tsx:89-104 | one row per folder, in order, without `onClick`, and then one row per file, in order, with its icon |
| SimpleFileList.RowsOrdered | frontend/src/components/file-list.tsx:88-105 | folder rows come before file rows |
| SimpleFileList.AgreesAtRoot | frontend/src/components/file-list.tsx:69-108 | at the bucket root both tables show the empty message in the same cases, and otherwise the same rows in the same order, except that this table's folder rows have no `onClick` |
| SimpleFileList.DiffersBelowRoot | frontend/src/components/file-list.tsx:70 | for an empty sub-folder this table shows the empty message, where the browsing table shows the up-row |
| Requests.ErrorMessage | frontend/src/components/CreateFolderDialog.tsx:41-55 | a non-ok reply gives its `details`, or the fallback when `details` is empty; an `Error` gives its message; anything else gives the generic text |
| FolderNames.IsValidName | frontend/src/components/CreateFolderDialog.tsx:28 | a name that passes the check is one breadcrumb segment, itself |
| FolderNames.ValidNameIsOneSegment | frontend/src/components/CreateFolderDialog.tsx:28 | a name passes the check iff, followed by `/`, its segments are just itself |
| FolderNames.ChildSegments | frontend/src/components/RenameDialog.tsx:44 | below the root or a `/`-terminated prefix, a valid name adds exactly one segment, with or without the trailing `/` |
| FolderNames.ChildIsFolderPrefix | frontend/src/components/RenameDialog.tsx:44 | a valid name under the root or a folder prefix gives a folder prefix again |
| RenameDialog.PlanRename | frontend/src/components/RenameDialog.tsx:35-44 | rejected, with the invalid-name error, iff there is no item or the name is empty or has `/`; `isFolder` iff the item is a folder; the old key is the folder's prefix or the file's key; the new key starts with the current prefix |
| RenameDialog.NewKeyIsChild | frontend/src/components/RenameDialog.tsx:36-44 | after the current prefix, the new key is the name plus `/` for a folder (so it ends in `/`), and the name alone for a file (no `/`, not ending in `/`) |
| RenameDialog.NewKeyIsOneLevelBelow | frontend/src/components/RenameDialog.tsx:44 | the new key's segments are the current folder's segments plus the new name |
| RenameDialog.FolderKeyIsFolderPrefix | frontend/src/components/RenameDialog.tsx:44 | a renamed folder gets a folder prefix again |
| RenameDialog.Dialog.constructor | frontend/src/components/RenameDialog.tsx:26-33 | the state starts from the props; `newName` is the item's name, or `""` without an item; no error |
| RenameDialog.Dialog.ReceiveItem | frontend/src/components/RenameDialog.tsx:29-33 | when the effect fires, a non-null item resets `newName` to its name; `null` leaves `newName` alone; nothing else changes |
| RenameDialog.Dialog.EditName | frontend/src/components/RenameDialog.tsx:76 | the input sets `newName` |
| RenameDialog.Dialog.Rename | frontend/src/components/RenameDialog.tsx:35-68 | an invalid plan sends nothing and sets the error; a valid one sends the planned request with the error cleared, then on success calls `onSuccess` and `onOpenChange(false)`, or keeps the dialog open with the failure message |
| CreateFolderDialog.PlanCreate | frontend/src/components/CreateFolderDialog.tsx:27-38 | rejected, with the invalid-name error, iff the name is empty or has `/`; otherwise the request carries the name unchanged and the current prefix |
| CreateFolderDialog.Dialog.constructor | frontend/src/components/CreateFolderDialog.tsx:22-25 | empty name, no error, closed |
| CreateFolderDialog.Dialog.SetOpen | frontend/src/components/CreateFolderDialog.tsx:59 | opening or cancelling only sets `isOpen` |
| CreateFolderDialog.Dialog.EditName | frontend/src/components/CreateFolderDialog.tsx:66 | the input sets `folderName` |
| CreateFolderDialog.Dialog.Create | frontend/src/components/CreateFolderDialog.tsx:27-55 | an invalid name sends nothing and sets the error; a valid one sends the request with the error cleared; success calls `onSuccess`, closes the dialog and clears the name; failure sets the message and keeps the dialog and the name |
| PropertiesPanel.LoadedTags | frontend/src/components/PropertiesPanel.tsx:21-41 | a null reply, a failed read or a cleared selection leaves no tags; a reply's list is taken as it is |
| PropertiesPanel.WithEmptyTag | frontend/src/components/PropertiesPanel.tsx:49-51 | one more tag, `{Key: "", Value: ""}`, at the end; the existing tags are unchanged |
| PropertiesPanel.WithoutTag | frontend/src/components/PropertiesPanel.tsx:53-56 | an index in range drops exactly that tag and keeps the order of the rest; any other index changes nothing |
| PropertiesPanel.WithTagField | frontend/src/components/PropertiesPanel.tsx:43-47 | defined iff the index is in range; the length, every other tag and the other field stay; the named field gets the value |
| PropertiesPanel.RemoveUndoesAdd | frontend/src/components/PropertiesPanel.tsx:49-56 | removing the tag just added restores the list |
| PropertiesPanel.RemoveTakesOutOne | frontend/src/components/PropertiesPanel.tsx:53-56 | removal shortens the list by one and removes exactly that tag from its multiset |
| PropertiesPanel.ChangeBackRestores | frontend/src/components/PropertiesPanel.tsx:43-47 | writing the old value back into the field restores the list |
| PropertiesPanel.Panel.constructor | frontend/src/components/PropertiesPanel.tsx:18-19 | no file, no tags, not loading |
| PropertiesPanel.Panel.SelectFile | frontend/src/components/PropertiesPanel.tsx:21-41 | the tags become what the read left, or none for a null file; loading ends after a read |
| PropertiesPanel.Panel.ChangeTag | frontend/src/components/PropertiesPanel.tsx:43-47 | in range, the list becomes the edited copy; out of range, it is unchanged and the edit reports failure |
| PropertiesPanel.Panel.AddTag | frontend/src/components/PropertiesPanel.tsx:49-51 | the list gains the empty tag at the end |
| PropertiesPanel.Panel.RemoveTag | frontend/src/components/PropertiesPanel.tsx:53-56 | the list loses the tag at the index |
| PropertiesPanel.Panel.SaveChanges | frontend/src/components/PropertiesPanel.tsx:58-76 | without a file nothing is sent; otherwise the whole current list is sent for the file's key, with no merge; the parent is notified iff the save was accepted; loading ends |
| UploadDialog.Dropped | frontend/src/components/UploadDialog.tsx:35 | one entry per dropped file, in order, at progress 0 and pending |
| UploadDialog.Step | frontend/src/components/UploadDialog.tsx:78-99 | a progress report sets the percentage and the uploading status; a status update sets only the status; the file stays |
| UploadDialog.Apply | frontend/src/components/UploadDialog.tsx:78 | one update changes only the entry at its index; the length and the other entries stay |
| UploadDialog.ProgressUpdates | frontend/src/components/UploadDialog.tsx:75-80 | one progress update per reported percentage, in order |
| UploadDialog.Updates | frontend/src/components/UploadDialog.tsx:54-100 | the `setFiles` calls of one upload end with its final status, every status they set is that final status, and once a status is set only statuses follow, so an entry never returns to uploading |
| UploadDialog.Settle | frontend/src/components/UploadDialog.tsx:54-100 | one upload keeps the length of the list and every other entry |
| UploadDialog.FinalStatus | frontend/src/components/UploadDialog.tsx:67-99 | success iff the transfer ended with a 2xx status; a failed URL request, another status or a network error mean error |
| UploadDialog.SettledEntry | frontend/src/components/UploadDialog.tsx:54-100 | after its upload an entry keeps its file and has the final status |
| UploadDialog.ApplyCommutes | frontend/src/components/UploadDialog.tsx:78-99 | two single updates to two different entries give the same list in either order |
| UploadDialog.ApplyAllIsPointUpdate | frontend/src/components/UploadDialog.tsx:78-99 | a run of updates at one index changes only that entry; at an index outside the list it changes nothing |
| UploadDialog.StepAllProgress | frontend/src/components/UploadDialog.tsx:75-80 | after progress reports an entry is uploading at the last reported percentage; without reports it is unchanged |
| UploadDialog.StepAllSettles | frontend/src/components/UploadDialog.tsx:54-100 | the updates one upload makes, step by step, end in the settled entry |
| UploadDialog.SettleIsPointUpdate | frontend/src/components/UploadDialog.tsx:54-100 | one file's upload replaces its entry with the settled entry; length and other entries stay |
| UploadDialog.SettleCommutes | frontend/src/components/UploadDialog.tsx:54-103 | two files' uploads give the same list in either order |
| UploadDialog.Run | frontend/src/components/UploadDialog.tsx:54-103 | the `setFiles` calls of all uploads, in any order, keep the length of the list |
| UploadDialog.RunIsPerEntry | frontend/src/components/UploadDialog.tsx:54-103 | whatever the interleaving, each entry ends as its own calls, in their order, leave it |
| UploadDialog.InterleavingSettles | frontend/src/components/UploadDialog.tsx:54-103 | any interleaving of the concurrent uploads that keeps each upload's own calls in order leaves every entry settled as its outcome says, the same list as the uploads one after another |
| UploadDialog.UploadDisabled | frontend/src/components/UploadDialog.tsx:145 | the `disabled` expression is false for a non-empty list in which every entry failed; after an upload the footer shows Done instead of the button (`Dialog.Upload`) |
| UploadDialog.FooterOf | frontend/src/components/UploadDialog.tsx:139-147 | Done once the upload completed; otherwise the Upload button, enabled iff not disabled |
| UploadDialog.ViewOf | frontend/src/components/UploadDialog.tsx:127-136 | a check mark iff success, a progress bar iff uploading, the failure note iff error |
| UploadDialog.DropEnablesUpload | frontend/src/components/UploadDialog.tsx:145 | after a drop the Upload button is disabled iff nothing was dropped |
| UploadDialog.DisabledByProgressOrSuccess | frontend/src/components/UploadDialog.tsx:145 | an uploading or successful entry disables the button; for a non-empty list in which every entry failed the `disabled` expression is false |
| UploadDialog.PresignRequests | frontend/src/components/UploadDialog.tsx:57-65 | one URL request per entry, with its name, its type and the current prefix |
| UploadDialog.Dialog.constructor | frontend/src/components/UploadDialog.tsx:30-32 | no files, not completed, closed |
| UploadDialog.Dialog.OnDrop | frontend/src/components/UploadDialog.tsx:34-38 | the dropped files replace the whole list and `uploadCompleted` becomes false |
| UploadDialog.Dialog.OpenChange | frontend/src/components/UploadDialog.tsx:40-47 | closing clears the list and `uploadCompleted`; opening keeps them |
| UploadDialog.Dialog.Upload | frontend/src/components/UploadDialog.tsx:51-106 | an empty list does nothing; otherwise one URL request per entry, every entry ends in its settled form (so all are settled), `uploadCompleted` is set even when some failed, so the footer shows Done and the list cannot be sent again, and the list is refreshed |
| PluginRegistry.Contributions | frontend/src/plugins/plugin-registry.tsx:14 | a plugin without the point contributes nothing; otherwise its list for that point |
| PluginRegistry.Contributed | frontend/src/plugins/plugin-registry.tsx:13-15 | the query over a single plugin is that plugin's own contributions |
| PluginRegistry.ContributedAppend | frontend/src/plugins/plugin-registry.tsx:13-15 | the query over two lists of plugins is the first's result followed by the second's |
| PluginRegistry.ContributedAround | frontend/src/plugins/plugin-registry.tsx:13-15 | plugin i's contributions sit after those of the plugins before it and before those after it |
| PluginRegistry.ContributedLength | frontend/src/plugins/plugin-registry.tsx:13-15 | the result's length is the sum of the plugins' contribution counts |
| PluginRegistry.ContributedMembership | frontend/src/plugins/plugin-registry.tsx:13-15 | a component is in the result iff some registered plugin contributes it at that point |
| PluginRegistry.NoPointNoContribution | frontend/src/plugins/plugin-registry.tsx:14 | a plugin without the point adds nothing, wherever it stands |
| PluginRegistry.LoggerPluginQuery | frontend/src/plugins/logger-plugin.tsx:25-33 | with only the console logger registered, the file-action query returns its one action |
| PluginRegistry.Registry.constructor | frontend/src/plugins/plugin-registry.tsx:3 | the registry starts empty |
| PluginRegistry.Registry.PluginsFor | frontend/src/plugins/plugin-registry.tsx:10-17 | the query returns as many components as the registered plugins contribute together |
| PluginRegistry.Registry.Register | frontend/src/plugins/plugin-registry.tsx:5-8 | the plugin is appended, even when already registered; from then on every query returns its old result followed by this plugin's contributions |

The query never changes the registry: `Registry.PluginsFor` is a function
that only reads the list.

## Left out

- The backend server and every network call: each answer a handler waits for is a parameter.
- `formatBytes` in the three listing files: it is floating-point arithmetic.
- Upload progress: `Math.round((loaded / total) * 100)` is floating point, so the model takes the rounded percentages as input.
- Console output, toasts, `cn`, date formatting and the markup around the modelled decisions. The callbacks `onSuccess`, `onActionSuccess` and `onUploadSuccess` are modelled only as a flag saying that they were called: `notified` of `RenameDialog.Dialog.Rename`, `CreateFolderDialog.Dialog.Create` and `PropertiesPanel.Panel.SaveChanges`, and `refreshed` of `UploadDialog.Dialog.Upload`.
- `NEXT_PUBLIC_AWS_BUCKET_NAME`, the label of the home button: display only.
- The `file-list.tsx` copies of `FileItem`, `FolderItem`, `FileListData` and of the icon `switch`: they are identical to those in `FileList.tsx`, so the model uses one definition.
- The second argument `PropertiesPanel.tsx` passes to `getFileIcon`, and the panel's markup: display only, and `getFileIcon` ignores it.
- `plugin-types.ts` is modelled as the `Plugin` datatype; its React component values are opaque identities.
- Strings.Lower: only the ASCII letters are lowercased; JavaScript's full Unicode case mapping is not modelled.
- PropertiesPanel.Panel.ChangeTag: `newTags[index][field] = value` writes into the tag object shared with the previous state. The model copies instead, so this aliasing is not captured. An out-of-range index throws a `TypeError` in the source; the model returns false and keeps the list.
- PropertiesPanel.Panel.SelectFile: the read is modelled as finishing at once, so the interval in which `isLoading` is true and the old tags are still shown is not modelled. A file changed again while a read is in flight is not modelled either.
- UploadDialog.Dialog.Upload: the uploads run concurrently in the source. The method runs them one after the other, in list order. `InterleavingSettles` shows that any interleaving of their `setFiles` calls that keeps each upload's own calls in order ends in the same list. A drop, a close or a second click on Upload that happens while uploads are in flight is not modelled. While the URL requests are pending every entry is still pending and `uploadCompleted` is false, so the button stays enabled and a second click would start a second upload of the same list.
- BreadcrumbNav.ClickTruncates: the bar does not own `prefix`; a click only calls `onNavigate`. The lemma describes the bar drawn for the new prefix, which becomes the bar only if the parent passes that prefix back. No page of the repository renders the bar.
- RenameDialog.Dialog.Rename: `isOpen` is a prop, and `onOpenChange(false)` is the parent's callback. The model assumes that the parent answers it by clearing `isOpen`. No page of the repository renders this dialog.
