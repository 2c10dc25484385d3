/** The second, navigation-free file table: folder rows then file rows, no
    up-row and no click handlers, and an empty message that does not look at
    any prefix. Its icon `switch` is a line-for-line copy of the one in the
    browsing table, so the model uses that one. */
module SimpleFileList {
  import opened Wrappers
  import opened FileList

  /** `items.folders.map(...)` of this component: the rows have no
      `onClick`. */
  function PlainFolderRows(folders: seq<FolderItem>): (rows: seq<Row>)
    ensures |rows| == |folders|
    ensures forall i :: 0 <= i < |rows| ==> OnClick(rows[i]).None?
  {
    seq(|folders|, i requires 0 <= i < |folders| => FolderRow(folders[i].name, folders[i].prefix, false))
  }

  /** `FileList({items})` of this component. A table is never empty, and no
      row of it can be clicked. */
  function Render(items: Option<FileListData>): (v: View)
    ensures v.Table? ==> items.Some? && |v.rows| == |items.value.folders| + |items.value.files| > 0
    ensures v.Table? ==> forall k :: 0 <= k < |v.rows| ==> OnClick(v.rows[k]).None?
  {
    if items.None? || (|items.value.folders| == 0 && |items.value.files| == 0)
    then EmptyMessage
    else
      var fo, fi := PlainFolderRows(items.value.folders), FileRows(items.value.files);
      assert forall k :: |fo| <= k < |fo| + |fi| ==> (fo + fi)[k] == fi[k - |fo|];
      Table(fo + fi)
  }

  /** The browsing table's row with its `onClick` taken away. */
  function WithoutClick(row: Row): (r: Row)
    ensures OnClick(r).None? <==> !r.UpRow?
  {
    match row
    case FolderRow(name, prefix, _) => FolderRow(name, prefix, false)
    case _ => row
  }

  /** The empty message is shown exactly when there are no folders and no
      files; there is no prefix to consider. */
  lemma EmptyMessageIff(items: Option<FileListData>)
    ensures Render(items).EmptyMessage? <==>
      items.None? || (items.value.folders == [] && items.value.files == [])
  {
  }

  /** One row per folder, in order, then one row per file, in order. */
  lemma RowAt(items: FileListData, k: nat)
    requires k < |items.folders| + |items.files|
    ensures Render(Some(items)).Table?
    ensures var rows := Render(Some(items)).rows;
      && |rows| == |items.folders| + |items.files|
      && (k < |items.folders| ==>
            rows[k] == FolderRow(items.folders[k].name, items.folders[k].prefix, false))
      && (k >= |items.folders| ==>
            var f := items.files[k - |items.folders|];
            rows[k] == FileRow(f.key, f.name, GetFileIcon(f.name)))
  {
    var fo, fi := PlainFolderRows(items.folders), FileRows(items.files);
    if k >= |items.folders| {
      assert (fo + fi)[k] == fi[k - |fo|];
    }
  }

  /** Folder rows precede file rows. */
  lemma RowsOrdered(items: FileListData)
    requires Render(Some(items)).Table?
    ensures RanksOrdered(Render(Some(items)).rows)
  {
    OrderedAppend(PlainFolderRows(items.folders), FileRows(items.files));
  }

  /** At the bucket root the two tables show the same rows in the same
      order; they differ only in that the browsing table's folder rows can
      be clicked and this table's cannot. */
  lemma AgreesAtRoot(items: Option<FileListData>)
    ensures Render(items).EmptyMessage? <==> FileList.Render(items, "").EmptyMessage?
    ensures Render(items).Table? ==>
      var rows, browsing := Render(items).rows, FileList.Render(items, "").rows;
      && |rows| == |browsing|
      && forall k :: 0 <= k < |rows| ==> rows[k] == WithoutClick(browsing[k])
  {
    if Render(items).Table? {
      var fo, fi := FolderRows(items.value.folders), FileRows(items.value.files);
      var po := PlainFolderRows(items.value.folders);
      assert Rows(items.value, "") == fo + fi;
      forall k | 0 <= k < |po| + |fi|
        ensures (po + fi)[k] == WithoutClick((fo + fi)[k])
      {
        if k >= |po| {
          assert (po + fi)[k] == fi[k - |po|] && (fo + fi)[k] == fi[k - |fo|];
        }
      }
    }
  }

  /** Below the root they differ: for an empty sub-folder this table shows
      the empty message where the browsing table shows the up-row. */
  lemma DiffersBelowRoot(currentPrefix: string)
    requires currentPrefix != ""
    ensures Render(Some(FileListData([], []))) == EmptyMessage
    ensures FileList.Render(Some(FileListData([], [])), currentPrefix) == Table([UpRow])
  {
  }
}
