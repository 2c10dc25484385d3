/** The browsing table: the entries of the listed folder, an "up" row when
    below the bucket root, then one row per sub-folder, then one row per
    file. This file also declares the listing entries other components
    import. */
module FileList {
  import opened Wrappers
  import Utils
  import Strings

  /** One object of the listing. */
  datatype FileItem = FileItem(key: string, name: string, lastModified: string, size: nat)

  /** One immediate sub-folder of the listing; `prefix` is its full key
      prefix. */
  datatype FolderItem = FolderItem(name: string, prefix: string)

  /** What the listing request returned. */
  datatype FileListData = FileListData(folders: seq<FolderItem>, files: seq<FileItem>)

  // ---------------------------------------------------------------------
  // the local icon table

  /** The extensions this table draws as images: `webp` is not among them. */
  const ImageExtensions: set<string> := {"jpg", "jpeg", "png", "gif", "svg"}

  /** The component's own copy of the `switch`. The table is its own
      specification: `IconTable` restates it as one extension set per
      family, so that the two copies can be compared set by set. No
      extension it knows is longer than four characters. */
  function IconForExtension(ext: string): (icon: Utils.FileIcon)
    ensures |ext| > 4 ==> icon == Utils.Generic
  {
    match ext
    case "jpg" | "jpeg" | "png" | "gif" | "svg" => Utils.Image
    case "pdf" => Utils.Text
    case "zip" | "rar" | "7z" => Utils.Archive
    case "mp4" | "mov" | "avi" => Utils.Video
    case "mp3" | "wav" => Utils.Audio
    case "js" | "jsx" | "ts" | "tsx" | "html" | "css" => Utils.Code
    case _ => Utils.Generic
  }

  /** The component's `getFileIcon`: the same extension, this table. A
      name without `.` is classified by the whole name, lowercased. */
  function GetFileIcon(fileName: string): (icon: Utils.FileIcon)
    ensures '.' !in fileName ==> icon == IconForExtension(Strings.Lower(fileName))
  {
    var ext := Utils.Extension(fileName);
    assert '.' !in fileName ==> ext == Strings.Lower(fileName) by {
      if '.' !in fileName { Utils.ExtensionWithoutDot(fileName); }
    }
    IconForExtension(ext)
  }

  /** Each family is chosen exactly for its listed extensions, `webp` not
      among the images, and every other extension is generic. */
  lemma IconTable(ext: string)
    ensures var icon := IconForExtension(ext);
      && (icon == Utils.Image <==> ext in ImageExtensions)
      && (icon == Utils.Text <==> ext in Utils.TextExtensions)
      && (icon == Utils.Archive <==> ext in Utils.ArchiveExtensions)
      && (icon == Utils.Video <==> ext in Utils.VideoExtensions)
      && (icon == Utils.Audio <==> ext in Utils.AudioExtensions)
      && (icon == Utils.Code <==> ext in Utils.CodeExtensions)
      && (icon == Utils.Generic <==>
            ext !in ImageExtensions + Utils.TextExtensions + Utils.ArchiveExtensions
                  + Utils.VideoExtensions + Utils.AudioExtensions + Utils.CodeExtensions)
  {
  }

  /** The two tables agree on every extension except `webp`, which the
      shared helper draws as an image and this component as a generic
      file. */
  lemma TablesDifferOnlyOnWebp(ext: string)
    ensures ext != "webp" ==> IconForExtension(ext) == Utils.IconForExtension(ext)
    ensures Utils.IconForExtension("webp") == Utils.Image
    ensures IconForExtension("webp") == Utils.Generic
  {
  }

  /** So a `.webp` file gets the image icon in the properties panel and the
      generic icon in the table. */
  lemma WebpIconsDiffer(base: string)
    ensures Utils.GetFileIcon(base + ".webp") == Utils.Image
    ensures GetFileIcon(base + ".webp") == Utils.Generic
  {
    Utils.ExtensionAfterLastDot(base, "webp");
    assert base + ".webp" == base + "." + "webp";
    assert Strings.Lower("webp") == "webp";
  }

  /** This copy is case-insensitive too. */
  lemma GetFileIconIgnoresCase(a: string, b: string)
    requires Strings.Lower(a) == Strings.Lower(b)
    ensures GetFileIcon(a) == GetFileIcon(b)
  {
    Utils.ExtensionIgnoresCase(a, b);
  }

  // ---------------------------------------------------------------------
  // the rendered view

  /** One table row. A folder row carries whether it has an `onClick`: the
      browsing table gives it one, the plain table does not. */
  datatype Row =
    | UpRow
    | FolderRow(name: string, prefix: string, clickable: bool)
    | FileRow(key: string, name: string, icon: Utils.FileIcon)

  /** What the component renders: the empty-folder message or a table. */
  datatype View = EmptyMessage | Table(rows: seq<Row>)

  /** What clicking a row asks the page to do. */
  datatype Action = NavigateUp | OpenFolder(prefix: string)

  /** `items.folders.map(...)`, every row with its `onClick`. */
  function FolderRows(folders: seq<FolderItem>): (rows: seq<Row>)
    ensures |rows| == |folders|
    ensures forall i :: 0 <= i < |folders| ==> rows[i] == FolderRow(folders[i].name, folders[i].prefix, true)
  {
    seq(|folders|, i requires 0 <= i < |folders| => FolderRow(folders[i].name, folders[i].prefix, true))
  }

  /** `items.files.map(...)`. */
  function FileRows(files: seq<FileItem>): (rows: seq<Row>)
    ensures |rows| == |files|
  {
    seq(|files|, i requires 0 <= i < |files| =>
      FileRow(files[i].key, files[i].name, GetFileIcon(files[i].name)))
  }

  /** The body of the table: one row per folder and per file, plus the
      up-row below the root. */
  function Rows(items: FileListData, currentPrefix: string): (rows: seq<Row>)
    ensures |rows| == UpRowCount(currentPrefix) + |items.folders| + |items.files|
  {
    (if currentPrefix != "" then [UpRow] else [])
      + FolderRows(items.folders) + FileRows(items.files)
  }

  /** `FileList({items, currentPrefix, ...})`; `None` is a missing `items`.
      A table is never empty: it has an item or the up-row. */
  function Render(items: Option<FileListData>, currentPrefix: string): (v: View)
    ensures v.Table? ==> items.Some? && v.rows == Rows(items.value, currentPrefix) && |v.rows| > 0
  {
    if items.None? || (|items.value.folders| == 0 && |items.value.files| == 0 && currentPrefix == "")
    then EmptyMessage
    else Table(Rows(items.value, currentPrefix))
  }

  /** The row's `onClick`: only the up-row navigates up, a clickable
      folder row opens its own prefix, and file rows have none. */
  function OnClick(row: Row): (a: Option<Action>)
    ensures a == Some(NavigateUp) <==> row.UpRow?
    ensures a.Some? && a.value.OpenFolder? ==> row.FolderRow? && a.value.prefix == row.prefix
    ensures row.FolderRow? ==> (a.Some? <==> row.clickable)
    ensures row.FileRow? ==> a.None?
  {
    match row
    case UpRow => Some(NavigateUp)
    case FolderRow(_, prefix, clickable) => if clickable then Some(OpenFolder(prefix)) else None
    case FileRow(_, _, _) => None
  }

  /** Up-row first, folders next, files last. */
  function Rank(row: Row): nat
  {
    match row
    case UpRow => 0
    case FolderRow(_, _, _) => 1
    case FileRow(_, _, _) => 2
  }

  predicate RanksOrdered(rows: seq<Row>)
  {
    forall i, j :: 0 <= i < j < |rows| ==> Rank(rows[i]) <= Rank(rows[j])
  }

  /** Number of rows before the first folder row. */
  function UpRowCount(currentPrefix: string): nat
  {
    if currentPrefix != "" then 1 else 0
  }

  // ---------------------------------------------------------------------
  // properties of the view

  /** The empty message is shown exactly when there is nothing to list at
      the bucket root; below the root an empty folder still gets a table
      holding only the up-row. */
  lemma EmptyMessageIff(items: Option<FileListData>, currentPrefix: string)
    ensures Render(items, currentPrefix).EmptyMessage? <==>
      items.None? || (items.value.folders == [] && items.value.files == [] && currentPrefix == "")
    ensures currentPrefix != "" ==>
      Render(Some(FileListData([], [])), currentPrefix) == Table([UpRow])
  {
  }

  /** The table has one row per folder and per file, plus the up-row below
      the root; the up-row is present exactly when the prefix is non-empty,
      and then it is the first row. */
  lemma UpRowIff(items: FileListData, currentPrefix: string)
    ensures var rows := Rows(items, currentPrefix);
      && |rows| == UpRowCount(currentPrefix) + |items.folders| + |items.files|
      && ((exists k :: 0 <= k < |rows| && rows[k] == UpRow) <==> currentPrefix != "")
      && (currentPrefix != "" ==> rows[0] == UpRow)
  {
    var rows := Rows(items, currentPrefix);
    if currentPrefix != "" {
      assert rows[0] == UpRow;
    }
  }

  /** Folder `i` has its own row, right after the up-row and the folders
      before it, and clicking it opens exactly that folder's prefix. */
  lemma FolderRowAt(items: FileListData, currentPrefix: string, i: nat)
    requires i < |items.folders|
    ensures var rows, f := Rows(items, currentPrefix), items.folders[i];
      && rows[UpRowCount(currentPrefix) + i] == FolderRow(f.name, f.prefix, true)
      && OnClick(rows[UpRowCount(currentPrefix) + i]) == Some(OpenFolder(f.prefix))
  {
  }

  /** File `i` has its own row, after every folder row and the files before
      it; file rows are not clickable. */
  lemma FileRowAt(items: FileListData, currentPrefix: string, i: nat)
    requires i < |items.files|
    ensures var rows, f := Rows(items, currentPrefix), items.files[i];
      && rows[UpRowCount(currentPrefix) + |items.folders| + i] == FileRow(f.key, f.name, GetFileIcon(f.name))
      && OnClick(rows[UpRowCount(currentPrefix) + |items.folders| + i]).None?
  {
    var up: seq<Row> := if currentPrefix != "" then [UpRow] else [];
    var fo, fi := FolderRows(items.folders), FileRows(items.files);
    var n := UpRowCount(currentPrefix) + |items.folders| + i;
    assert |up + fo| + i == n;
    assert Rows(items, currentPrefix)[n] == fi[i];
  }

  /** The up-row comes first, folder rows next and file rows last. */
  lemma RowsOrdered(items: FileListData, currentPrefix: string)
    ensures RanksOrdered(Rows(items, currentPrefix))
  {
    var up := if currentPrefix != "" then [UpRow] else [];
    var fo, fi := FolderRows(items.folders), FileRows(items.files);
    OrderedAppend(up, fo);
    OrderedAppend(up + fo, fi);
  }

  /** Two rank-ordered lists whose ranks do not overlap the wrong way stay
      rank-ordered when concatenated. */
  lemma OrderedAppend(a: seq<Row>, b: seq<Row>)
    requires RanksOrdered(a) && RanksOrdered(b)
    requires forall i, j :: 0 <= i < |a| && 0 <= j < |b| ==> Rank(a[i]) <= Rank(b[j])
    ensures RanksOrdered(a + b)
  {
  }
}
