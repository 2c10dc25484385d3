/** The breadcrumb bar above the file list: the current key prefix cut into
    its `/`-separated segments, a home button, one link per ancestor folder
    and the current folder's name as plain text. */
module BreadcrumbNav {
  import opened Wrappers
  import opened Strings

  /** `prefix.split('/').filter(Boolean)`. */
  function Segments(prefix: string): (segs: seq<string>)
    ensures IsSegmentList(segs)
  {
    SplitPiecesWithoutSep(prefix, '/');
    NonEmpty(Split(prefix, '/'))
  }

  /** Every segment is a non-empty name without `/`. */
  predicate IsSegmentList(segs: seq<string>)
  {
    forall k :: 0 <= k < |segs| ==> segs[k] != "" && '/' !in segs[k]
  }

  /** The prefix `handleNavigate(index)` passes on:
      `segments.slice(0, index + 1).join('/') + '/'`. It always ends in
      `/`. */
  function NavigationTarget(segs: seq<string>, index: nat): (target: string)
    requires index < |segs|
    ensures |target| > 0 && target[|target| - 1] == '/'
  {
    Join(segs[..index + 1], "/") + "/"
  }

  /** The prefix the home button passes on. */
  const HomeTarget: string := ""

  /** One entry of the rendered bar. */
  datatype Crumb =
    | HomeCrumb
    | LinkCrumb(name: string, target: string)
    | CurrentCrumb(name: string)

  /** What the bar shows for `prefix`: the home button, then one entry per
      segment; every segment but the last is a link. */
  function Crumbs(prefix: string): (cs: seq<Crumb>)
    ensures |cs| == |Segments(prefix)| + 1 && cs[0] == HomeCrumb
    ensures |cs| > 1 ==> cs[|cs| - 1] == CurrentCrumb(Segments(prefix)[|cs| - 2])
  {
    var segs := Segments(prefix);
    [HomeCrumb] + seq(|segs|, k requires 0 <= k < |segs| =>
      if k < |segs| - 1 then LinkCrumb(segs[k], NavigationTarget(segs, k))
      else CurrentCrumb(segs[k]))
  }

  /** The prefix clicking an entry navigates to; plain text is not clickable. */
  function ClickTarget(c: Crumb): (target: Option<string>)
    ensures target.None? <==> c.CurrentCrumb?
    ensures c.HomeCrumb? ==> target == Some(HomeTarget)
  {
    match c
    case HomeCrumb => Some(HomeTarget)
    case LinkCrumb(_, target) => Some(target)
    case CurrentCrumb(_) => None
  }

  /** A key prefix of a folder: non-empty, ends in `/`, does not start with
      `/` and has no `//`, so that none of its segments is empty. */
  predicate IsFolderPrefix(p: string)
  {
    && |p| > 0
    && p[0] != '/'
    && p[|p| - 1] == '/'
    && forall k :: 0 <= k < |p| - 1 ==> !(p[k] == '/' && p[k + 1] == '/')
  }

  /** Position of the first `c` in `s`. */
  function IndexOf(s: string, c: char): (i: nat)
    requires c in s
    ensures i < |s| && s[i] == c && c !in s[..i]
  {
    if s[0] == c then 0 else 1 + IndexOf(s[1..], c)
  }

  // ---------------------------------------------------------------------
  // Segments

  /** The bucket root has no segments, so the bar is the home button alone. */
  lemma RootShowsOnlyHome()
    ensures Segments("") == []
    ensures Crumbs("") == [HomeCrumb]
  {
  }

  /** The segments of `x + "/" + y` are those of `x` followed by those of `y`. */
  lemma SegmentsAtSlash(x: string, y: string)
    ensures Segments(x + "/" + y) == Segments(x) + Segments(y)
  {
    SplitAtSep(x, y, '/');
    NonEmptyAppend(Split(x, '/'), Split(y, '/'));
  }

  /** A trailing `/` does not add a segment. */
  lemma SegmentsTrailingSlash(x: string)
    ensures Segments(x + "/") == Segments(x)
  {
    SegmentsAtSlash(x, "");
    assert x + "/" + "" == x + "/";
  }

  /** A name without `/` is one segment, or none when it is empty. */
  lemma SegmentsOfName(name: string)
    requires '/' !in name
    ensures Segments(name) == if name == "" then [] else [name]
  {
    SplitWithoutSep(name, '/');
  }

  /** Joining segments with `/` and appending `/` builds a prefix whose
      segments are exactly those segments. */
  lemma SegmentsOfJoined(segs: seq<string>)
    requires IsSegmentList(segs)
    ensures Segments(Join(segs, "/") + "/") == segs
  {
    if |segs| == 0 {
      assert Join(segs, "/") + "/" == "" + "/" + "";
      SegmentsAtSlash("", "");
    } else {
      SegmentsTrailingSlash(Join(segs, "/"));
      SplitJoin(segs, '/');
      NonEmptyKeepsAll(segs);
    }
  }

  /** Round trip: a folder prefix is rebuilt by joining its segments with
      `/` and appending `/`. */
  lemma {:induction false} FolderPrefixRoundTrip(p: string)
    requires IsFolderPrefix(p)
    ensures Join(Segments(p), "/") + "/" == p
    decreases |p|
  {
    var i := IndexOf(p, '/');
    var x, y := p[..i], p[i + 1..];
    assert p == x + "/" + y;
    SegmentsAtSlash(x, y);
    SegmentsOfName(x);
    if y == "" {
      SegmentsOfName(y);
    } else {
      FolderPrefixTail(p, i);
      FolderPrefixRoundTrip(y);
      JoinCons(x, Segments(y));
    }
  }

  /** What follows the first `/` of a folder prefix, when anything does, is
      a folder prefix again. */
  lemma FolderPrefixTail(p: string, i: nat)
    requires IsFolderPrefix(p) && i + 1 < |p| && p[i] == '/'
    ensures IsFolderPrefix(p[i + 1..])
  {
    var y := p[i + 1..];
    assert y[0] == p[i + 1];
    assert forall k :: 0 <= k < |y| ==> y[k] == p[i + 1 + k];
  }

  /** Joining a segment in front of a non-empty list. */
  lemma JoinCons(x: string, s: seq<string>)
    requires |s| > 0
    ensures Join([x] + s, "/") == x + "/" + Join(s, "/")
  {
    assert ([x] + s)[1..] == s;
  }

  // ---------------------------------------------------------------------
  // navigation targets

  /** The prefix a link navigates to ends in `/` and consists of exactly the
      first `index + 1` segments. */
  lemma TargetIsAncestor(segs: seq<string>, index: nat)
    requires IsSegmentList(segs) && index < |segs|
    ensures var t := NavigationTarget(segs, index);
      && t[|t| - 1] == '/'
      && Segments(t) == segs[..index + 1]
  {
    SegmentsOfJoined(segs[..index + 1]);
  }

  /** Link targets are nested: the next one extends this one by one segment
      and a `/`. */
  lemma TargetsNested(segs: seq<string>, index: nat)
    requires index + 1 < |segs|
    ensures NavigationTarget(segs, index + 1)
         == NavigationTarget(segs, index) + segs[index + 1] + "/"
  {
    assert segs[..index + 2] == segs[..index + 1] + [segs[index + 1]];
    JoinSnoc(segs[..index + 1], segs[index + 1], "/");
  }

  /** Every link target of a folder prefix is a string prefix of it, and the
      full join of its segments is the prefix itself. */
  lemma {:induction false} TargetIsStringPrefix(p: string, index: nat)
    requires IsFolderPrefix(p) && index < |Segments(p)|
    ensures NavigationTarget(Segments(p), index) <= p
    decreases |Segments(p)| - index
  {
    var segs := Segments(p);
    if index == |segs| - 1 {
      assert segs[..index + 1] == segs;
      FolderPrefixRoundTrip(p);
    } else {
      TargetIsStringPrefix(p, index + 1);
      TargetsNested(segs, index);
    }
  }

  // ---------------------------------------------------------------------
  // the rendered bar

  /** The bar has one entry per segment after the home button; entry `k + 1`
      is a link exactly when segment `k` is not the last one, the last is
      plain text, and the home button navigates to the bucket root. */
  lemma CrumbsShape(prefix: string, k: nat)
    requires k < |Segments(prefix)|
    ensures var segs, cs := Segments(prefix), Crumbs(prefix);
      && |cs| == |segs| + 1
      && cs[0] == HomeCrumb && ClickTarget(cs[0]) == Some("")
      && (ClickTarget(cs[k + 1]).Some? <==> k < |segs| - 1)
      && (k < |segs| - 1 ==> cs[k + 1] == LinkCrumb(segs[k], NavigationTarget(segs, k)))
      && (k == |segs| - 1 ==> cs[k + 1] == CurrentCrumb(segs[k]))
  {
  }

  /** The bar drawn for the prefix that link `k` passes to `onNavigate` is
      the current bar cut back to that entry, which becomes the plain-text
      current folder. */
  lemma ClickTruncates(prefix: string, k: nat)
    requires k < |Segments(prefix)| - 1
    ensures var cs := Crumbs(prefix);
      Crumbs(NavigationTarget(Segments(prefix), k))
        == cs[..k + 1] + [CurrentCrumb(Segments(prefix)[k])]
  {
    var segs := Segments(prefix);
    var t := NavigationTarget(segs, k);
    TargetIsAncestor(segs, k);
    var ts := segs[..k + 1];
    var lhs, rhs := Crumbs(t), Crumbs(prefix)[..k + 1] + [CurrentCrumb(segs[k])];
    assert |lhs| == |rhs|;
    forall i | 0 < i < |lhs| ensures lhs[i] == rhs[i] {
      CrumbAt(t, i);
      if i <= k {
        CrumbAt(prefix, i);
        assert ts[..i] == segs[..i];
      }
    }
  }

  /** Entry `i` after the home button: a link for every segment but the
      last, plain text for the last. */
  lemma CrumbAt(prefix: string, i: nat)
    requires 0 < i <= |Segments(prefix)|
    ensures var segs := Segments(prefix);
      Crumbs(prefix)[i] == if i < |segs| then LinkCrumb(segs[i - 1], NavigationTarget(segs, i - 1))
                           else CurrentCrumb(segs[i - 1])
  {
  }
}
