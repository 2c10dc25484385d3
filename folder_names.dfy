/** The name check both dialogs apply before they send a request, and what
    it guarantees about the key built from the name. */
module FolderNames {
  import opened BreadcrumbNav

  /** `name && !name.includes('/')`: a name that passes is exactly one
      breadcrumb segment, itself. */
  predicate IsValidName(name: string)
    ensures IsValidName(name) ==> Segments(name) == [name]
  {
    if '/' in name then false
    else SegmentsOfName(name); name != ""
  }

  /** A name passes the check exactly when, followed by `/`, it is one
      breadcrumb segment, namely itself. */
  lemma ValidNameIsOneSegment(name: string)
    ensures IsValidName(name) <==> Segments(name + "/") == [name]
  {
    if IsValidName(name) {
      SegmentsTrailingSlash(name);
      SegmentsOfName(name);
    }
    if Segments(name + "/") == [name] {
      assert Segments(name + "/")[0] == name;
    }
  }

  /** A valid name under a prefix that is the root or ends in `/` adds
      exactly one segment, with or without a trailing `/`. */
  lemma ChildSegments(parent: string, name: string)
    requires parent == "" || parent[|parent| - 1] == '/'
    requires IsValidName(name)
    ensures Segments(parent + name) == Segments(parent) + [name]
    ensures Segments(parent + name + "/") == Segments(parent) + [name]
  {
    SegmentsOfName(name);
    if parent == "" {
      assert parent + name == name;
    } else {
      var p := parent[..|parent| - 1];
      assert parent == p + "/";
      assert parent + name == p + "/" + name;
      SegmentsAtSlash(p, name);
      SegmentsTrailingSlash(p);
    }
    SegmentsTrailingSlash(parent + name);
  }

  /** A valid name under the root or under a folder prefix gives a folder
      prefix again. */
  lemma ChildIsFolderPrefix(parent: string, name: string)
    requires parent == "" || IsFolderPrefix(parent)
    requires IsValidName(name)
    ensures IsFolderPrefix(parent + name + "/")
  {
    var c := parent + name + "/";
    var n, m := |parent|, |name|;
    assert c[0] != '/' by {
      if n == 0 { assert c[0] == name[0]; } else { assert c[0] == parent[0]; }
    }
    forall k | 0 <= k < |c| - 1
      ensures !(c[k] == '/' && c[k + 1] == '/')
    {
      if k + 1 < n {
        assert c[k] == parent[k] && c[k + 1] == parent[k + 1];
      } else if k + 1 == n {
        assert c[k + 1] == name[0];
      } else {
        assert c[k] == name[k - n];
      }
    }
  }
}
