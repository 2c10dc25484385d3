/** The file-type icon chosen from a file name's extension, as the shared
    helper library does it (the copy that also treats `webp` as an image). */
module Utils {
  import opened Strings

  /** The icon families the front end draws for a file. */
  datatype FileIcon = Image | Text | Archive | Video | Audio | Code | Generic

  /** `fileName.split('.').pop()?.toLowerCase()`: the last `.`-separated
      piece, lowercased. `split` always yields a piece, so `pop()` never
      comes back `undefined`. */
  function Extension(fileName: string): (ext: string)
    ensures '.' !in ext
  {
    SplitPiecesWithoutSep(fileName, '.');
    var pieces := Split(fileName, '.');
    var last := pieces[|pieces| - 1];
    assert forall k :: 0 <= k < |last| ==> last[k] != '.';
    Lower(last)
  }

  const ImageExtensions: set<string> := {"jpg", "jpeg", "png", "gif", "svg", "webp"}
  const TextExtensions: set<string> := {"pdf"}
  const ArchiveExtensions: set<string> := {"zip", "rar", "7z"}
  const VideoExtensions: set<string> := {"mp4", "mov", "avi"}
  const AudioExtensions: set<string> := {"mp3", "wav"}
  const CodeExtensions: set<string> := {"js", "jsx", "ts", "tsx", "html", "css"}

  /** The `switch` on the extension. The table is its own specification:
      `IconTable` restates it as one extension set per family. No extension
      it knows is longer than four characters. */
  function IconForExtension(ext: string): (icon: FileIcon)
    ensures |ext| > 4 ==> icon == Generic
  {
    match ext
    case "jpg" | "jpeg" | "png" | "gif" | "svg" | "webp" => Image
    case "pdf" => Text
    case "zip" | "rar" | "7z" => Archive
    case "mp4" | "mov" | "avi" => Video
    case "mp3" | "wav" => Audio
    case "js" | "jsx" | "ts" | "tsx" | "html" | "css" => Code
    case _ => Generic
  }

  /** `getFileIcon(fileName)`. A name without `.` is classified by the
      whole name, lowercased. */
  function GetFileIcon(fileName: string): (icon: FileIcon)
    ensures '.' !in fileName ==> icon == IconForExtension(Lower(fileName))
  {
    var ext := Extension(fileName);
    assert '.' !in fileName ==> ext == Lower(fileName) by {
      if '.' !in fileName { ExtensionWithoutDot(fileName); }
    }
    IconForExtension(ext)
  }

  /** Each family is chosen exactly for its listed extensions, and every
      other extension is generic. */
  lemma IconTable(ext: string)
    ensures var icon := IconForExtension(ext);
      && (icon == Image <==> ext in ImageExtensions)
      && (icon == Text <==> ext in TextExtensions)
      && (icon == Archive <==> ext in ArchiveExtensions)
      && (icon == Video <==> ext in VideoExtensions)
      && (icon == Audio <==> ext in AudioExtensions)
      && (icon == Code <==> ext in CodeExtensions)
      && (icon == Generic <==>
            ext !in ImageExtensions + TextExtensions + ArchiveExtensions
                  + VideoExtensions + AudioExtensions + CodeExtensions)
  {
  }

  // ---------------------------------------------------------------------
  // the extension

  /** A name without a `.` is its own extension, lowercased. */
  lemma ExtensionWithoutDot(fileName: string)
    requires '.' !in fileName
    ensures Extension(fileName) == Lower(fileName)
  {
    SplitWithoutSep(fileName, '.');
  }

  /** Only the text after the last `.` counts: whatever precedes it, the
      extension of `base + "." + ext` is `ext` lowercased. */
  lemma ExtensionAfterLastDot(base: string, ext: string)
    requires '.' !in ext
    ensures Extension(base + "." + ext) == Lower(ext)
  {
    SplitAtSep(base, ext, '.');
    SplitWithoutSep(ext, '.');
  }

  /** Names that differ only in the case of their letters have the same
      extension. */
  lemma ExtensionIgnoresCase(a: string, b: string)
    requires Lower(a) == Lower(b)
    ensures Extension(a) == Extension(b)
  {
    ExtensionOfLower(a);
    ExtensionOfLower(b);
  }

  /** Lowercasing a name first does not change its extension. */
  lemma ExtensionOfLower(fileName: string)
    ensures Extension(Lower(fileName)) == Extension(fileName)
  {
    SplitLower(fileName, '.');
    var pieces := Split(fileName, '.');
    LowerIdempotent(pieces[|pieces| - 1]);
  }

  // ---------------------------------------------------------------------
  // the icon

  /** Classification is case-insensitive. */
  lemma GetFileIconIgnoresCase(a: string, b: string)
    requires Lower(a) == Lower(b)
    ensures GetFileIcon(a) == GetFileIcon(b)
  {
    ExtensionIgnoresCase(a, b);
  }

  /** Only the last extension matters: `a.png.txt` is not an image. */
  lemma OnlyLastExtensionCounts()
    ensures GetFileIcon("a.png.txt") == Generic
  {
    ExtensionAfterLastDot("a.png", "txt");
    assert "a.png.txt" == "a.png" + "." + "txt";
    assert Lower("txt") == "txt";
    TxtIsGeneric();
  }

  /** `txt` is not in the table. */
  lemma TxtIsGeneric()
    ensures IconForExtension("txt") == Generic
  {
  }

  /** An upper-case extension is classified like its lower-case form. */
  lemma UpperCaseExtension()
    ensures GetFileIcon("photo.JPG") == Image
  {
    ExtensionAfterLastDot("photo", "JPG");
    assert "photo.JPG" == "photo" + "." + "JPG";
    assert Lower("JPG") == "jpg";
  }

  /** A trailing dot leaves the empty extension, which is generic. */
  lemma TrailingDotIsGeneric(base: string)
    ensures GetFileIcon(base + ".") == Generic
  {
    ExtensionAfterLastDot(base, "");
    assert base + "." == base + "." + "";
  }
}
