/** The properties panel of one selected file: it loads the file's tags,
    lets the user add, remove and edit them, and saves the whole list back. */
module PropertiesPanel {
  import opened Wrappers
  import FileList

  /** One object tag, with the field names the storage API uses. */
  datatype Tag = Tag(Key: string, Value: string)

  /** Which input of a tag row changed. */
  datatype TagField = KeyField | ValueField

  /** How the tag read ended: the parsed reply (`None` for a JSON `null`),
      or a failure (the fetch threw, the reply was not ok, or it did not
      parse). */
  datatype TagFetch = Fetched(data: Option<seq<Tag>>) | FetchFailed

  /** The body of the save request. */
  datatype SaveRequest = SaveRequest(key: string, tags: seq<Tag>)

  /** The tags the effect on `file` leaves: `data || []` after a successful
      read, `[]` after a failed one, and `[]` when no file is selected. */
  function LoadedTags(file: Option<FileList.FileItem>, fetched: TagFetch): (r: seq<Tag>)
    ensures file.None? || fetched.FetchFailed? || fetched == Fetched(None) ==> r == []
    ensures file.Some? && fetched.Fetched? && fetched.data.Some? ==> r == fetched.data.value
  {
    if file.None? then []
    else match fetched
      case Fetched(data) => if data.Some? then data.value else []
      case FetchFailed => []
  }

  /** `[...tags, { Key: '', Value: '' }]`: one empty tag more at the end. */
  function WithEmptyTag(tags: seq<Tag>): (r: seq<Tag>)
    ensures |r| == |tags| + 1
    ensures r[..|tags|] == tags && r[|tags|] == Tag("", "")
  {
    tags + [Tag("", "")]
  }

  /** `tags.filter((_, i) => i !== index)`. */
  function WithoutTag(tags: seq<Tag>, index: int): (r: seq<Tag>)
    ensures 0 <= index < |tags| ==> r == tags[..index] + tags[index + 1..]
    ensures !(0 <= index < |tags|) ==> r == tags
    decreases |tags|
  {
    if |tags| == 0 then []
    else
      var n := |tags| - 1;
      WithoutTag(tags[..n], index) + (if n != index then [tags[n]] else [])
  }

  /** The field `field` of `tag`. */
  function FieldOf(tag: Tag, field: TagField): string
  {
    match field
    case KeyField => tag.Key
    case ValueField => tag.Value
  }

  /** `newTags[index][field] = value` on a copy of the list; `None` when
      there is no tag at `index` (the assignment throws). */
  function WithTagField(tags: seq<Tag>, index: int, field: TagField, value: string): (r: Option<seq<Tag>>)
    ensures r.Some? <==> 0 <= index < |tags|
    ensures r.Some? ==> |r.value| == |tags|
    ensures r.Some? ==> forall j :: 0 <= j < |tags| && j != index ==> r.value[j] == tags[j]
    ensures r.Some? ==> FieldOf(r.value[index], field) == value
    ensures r.Some? ==> forall other :: other != field ==>
      FieldOf(r.value[index], other) == FieldOf(tags[index], other)
  {
    if 0 <= index < |tags| then
      var t := tags[index];
      var t' := match field
        case KeyField => t.(Key := value)
        case ValueField => t.(Value := value);
      Some(tags[index := t'])
    else None
  }

  // ---------------------------------------------------------------------
  // properties of the tag edits

  /** Removing the tag just added gives back the list from before. */
  lemma RemoveUndoesAdd(tags: seq<Tag>)
    ensures WithoutTag(WithEmptyTag(tags), |tags|) == tags
  {
    assert WithEmptyTag(tags)[..|tags|] == tags;
  }

  /** Removing at an index takes out exactly that tag: the rest keep their
      order, and the multiset of tags loses that one element. */
  lemma RemoveTakesOutOne(tags: seq<Tag>, index: int)
    requires 0 <= index < |tags|
    ensures |WithoutTag(tags, index)| == |tags| - 1
    ensures multiset(WithoutTag(tags, index)) + multiset{tags[index]} == multiset(tags)
  {
    SplitAround(tags, index);
  }

  /** Cutting one element out of a sequence removes it from its multiset. */
  lemma SplitAround<T>(s: seq<T>, i: int)
    requires 0 <= i < |s|
    ensures multiset(s[..i] + s[i + 1..]) + multiset{s[i]} == multiset(s)
  {
    assert s == s[..i] + [s[i]] + s[i + 1..];
  }

  /** Writing back the old value of the field restores the list. */
  lemma ChangeBackRestores(tags: seq<Tag>, index: int, field: TagField, value: string)
    requires 0 <= index < |tags|
    ensures var changed := WithTagField(tags, index, field, value).value;
      WithTagField(changed, index, field, FieldOf(tags[index], field)) == Some(tags)
  {
    var changed := WithTagField(tags, index, field, value).value;
    var back := WithTagField(changed, index, field, FieldOf(tags[index], field)).value;
    assert back[index] == tags[index] by {
      match field {
        case KeyField => assert FieldOf(back[index], ValueField) == tags[index].Value;
        case ValueField => assert FieldOf(back[index], KeyField) == tags[index].Key;
      }
    }
    assert back == tags;
  }

  /** The panel's state: the `file` prop, the `tags` list and `isLoading`. */
  class Panel {
    var file: Option<FileList.FileItem>
    var tags: seq<Tag>
    var isLoading: bool

    constructor ()
      ensures file.None? && tags == [] && !isLoading
    {
      file, tags, isLoading := None, [], false;
    }

    /** The effect on `file`, with the tag read answered by `fetched`: a
      selected file's tags are loaded (and loading ends), a cleared
      selection empties the list. */
    method SelectFile(f: Option<FileList.FileItem>, fetched: TagFetch)
      modifies this
      ensures file == f && tags == LoadedTags(f, fetched)
      ensures isLoading == (if f.Some? then false else old(isLoading))
    {
      file := f;
      if f.Some? {
        isLoading := true;
        match fetched {
          case Fetched(data) =>
            tags := if data.Some? then data.value else [];
          case FetchFailed =>
            tags := [];
        }
        isLoading := false;
      } else {
        tags := [];
      }
    }

    /** `handleTagChange`; `ok` is false when there is no tag at `index`,
      and then the list is left as it was. */
    method ChangeTag(index: int, field: TagField, value: string) returns (ok: bool)
      modifies this`tags
      ensures ok == (0 <= index < |old(tags)|)
      ensures tags == if ok then WithTagField(old(tags), index, field, value).value else old(tags)
    {
      var newTags := WithTagField(tags, index, field, value);
      if newTags.None? {
        return false;
      }
      tags := newTags.value;
      ok := true;
    }

    /** `handleAddTag`. */
    method AddTag()
      modifies this`tags
      ensures tags == WithEmptyTag(old(tags))
    {
      tags := tags + [Tag("", "")];
    }

    /** `handleRemoveTag`. */
    method RemoveTag(index: int)
      modifies this`tags
      ensures tags == WithoutTag(old(tags), index)
    {
      tags := WithoutTag(tags, index);
    }

    /** `handleSaveChanges`, with the backend's answer given as `accepted`.
      Without a file nothing happens; otherwise the whole current list is
      sent, replacing the stored tags, and `notified` tells whether
      `onActionSuccess` was called. */
    method SaveChanges(accepted: bool) returns (sent: Option<SaveRequest>, notified: bool)
      modifies this`isLoading
      ensures file.None? ==> sent.None? && !notified && isLoading == old(isLoading)
      ensures file.Some? ==> sent == Some(SaveRequest(file.value.key, tags))
                             && notified == accepted && !isLoading
    {
      if file.None? {
        return None, false;
      }
      isLoading := true;
      sent := Some(SaveRequest(file.value.key, tags));
      notified := accepted;
      isLoading := false;
    }
  }
}
