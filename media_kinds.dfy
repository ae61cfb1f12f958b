/** The module-level helpers of `exiftool.py`: the five extension classifiers
    `is_jpg` .. `is_m4v`, which take the extension `os.path.splitext` finds
    and compare it case-insensitively, and the five `get_*_date` selectors,
    which pick the date tag to parse from exiftool's JSON record with a
    fallback chain whose last lookup is unconditional. */
module MediaKinds {
  import opened Text

  /** `s.rfind(c)`: the last index of c in s, or -1. */
  function LastIndex(s: string, c: char): (r: int)
    ensures -1 <= r < |s|
    ensures r == -1 <==> c !in s
    ensures r >= 0 ==> s[r] == c && c !in s[r + 1..]
  {
    if s == [] then -1
    else if s[|s| - 1] == c then |s| - 1
    else
      var r := LastIndex(s[..|s| - 1], c);
      assert s[r + 1..] == s[..|s| - 1][r + 1..] + [s[|s| - 1]];
      r
  }

  /** Some character strictly between positions i and j is not a dot. */
  predicate HasNonDot(p: string, i: nat, j: nat)
    requires i <= j <= |p|
  {
    exists k :: i <= k < j && p[k] != '.'
  }

  /** A character absent from a suffix is absent from every shorter suffix. */
  lemma AbsentFromSuffix(s: string, c: char, i: nat, j: nat)
    requires i <= j <= |s| && c !in s[i..]
    ensures c !in s[j..]
  {
    forall k | 0 <= k < |s[j..]|
      ensures s[j..][k] != c
    {
      assert s[j..][k] == s[i..][k + j - i];
    }
  }

  /** The tail from the last dot on, when that dot follows the last slash,
      is a dot followed by neither dots nor slashes. */
  lemma ExtensionTail(p: string, sepIndex: int, dotIndex: int)
    requires sepIndex == LastIndex(p, '/') && dotIndex == LastIndex(p, '.') && dotIndex > sepIndex
    ensures p[dotIndex..][0] == '.' && '.' !in p[dotIndex..][1..] && '/' !in p[dotIndex..]
  {
    var ext := p[dotIndex..];
    assert ext[1..] == p[dotIndex + 1..];
    AbsentFromSuffix(p, '/', sepIndex + 1, dotIndex);
  }

  /** No character after the last c is c. */
  lemma AfterLast(s: string, c: char, r: int)
    requires r == LastIndex(s, c)
    ensures forall k :: r < k < |s| ==> s[k] != c
  {
    forall k | r < k < |s|
      ensures s[k] != c
    {
      if r == -1 {
        assert s[k] in s;
      } else {
        assert s[k] == s[r + 1..][k - r - 1];
      }
    }
  }

  /** The last path component has a dot with some character other than a dot
      before it. */
  predicate HasExtension(p: string)
  {
    exists i, j :: 0 <= i < j < |p| && p[i] != '.' && p[j] == '.' && '/' !in p[i..]
  }

  /** The test `splitext` makes on the last slash and the last dot is
      `HasExtension`. */
  lemma ExtensionCondition(p: string, sepIndex: int, dotIndex: int)
    requires sepIndex == LastIndex(p, '/') && dotIndex == LastIndex(p, '.')
    ensures dotIndex > sepIndex && HasNonDot(p, sepIndex + 1, dotIndex) <==> HasExtension(p)
  {
    if sepIndex == -1 {
      assert p[sepIndex + 1..] == p;
    }
    assert '/' !in p[sepIndex + 1..];
    AfterLast(p, '.', dotIndex);
    if dotIndex > sepIndex && HasNonDot(p, sepIndex + 1, dotIndex) {
      var k :| sepIndex + 1 <= k < dotIndex && p[k] != '.';
      AbsentFromSuffix(p, '/', sepIndex + 1, k);
      assert p[dotIndex] == '.';
    }
    if HasExtension(p) {
      var i, j :| 0 <= i < j < |p| && p[i] != '.' && p[j] == '.' && '/' !in p[i..];
      forall k | i <= k < |p|
        ensures p[k] != '/'
      {
        assert p[k] == p[i..][k - i];
      }
      assert sepIndex + 1 <= i < dotIndex && p[i] != '.';
    }
  }

  /** `os.path.splitext(p)` on POSIX: the extension is everything from the
      last dot on, provided that dot comes after the last slash and the file
      name does not consist of dots up to it (a leading dot starts a hidden
      name, not an extension). Root and extension make up the path; the
      extension is empty unless the last component has a dot after some
      other character, and is otherwise a dot followed by no dot and no
      slash, so it runs from the last dot. */
  function SplitExt(p: string): (r: (string, string))
    ensures r.0 + r.1 == p
    ensures r.1 != [] <==> HasExtension(p)
    ensures r.1 == [] || (r.1[0] == '.' && '.' !in r.1[1..] && '/' !in r.1)
  {
    var sepIndex := LastIndex(p, '/');
    var dotIndex := LastIndex(p, '.');
    ExtensionCondition(p, sepIndex, dotIndex);
    if dotIndex > sepIndex && HasNonDot(p, sepIndex + 1, dotIndex) then
      ExtensionTail(p, sepIndex, dotIndex);
      (p[..dotIndex], p[dotIndex..])
    else (p, [])
  }

  function Ext(f: string): string { SplitExt(f).1 }

  /** `is_jpg(f)`: the lower-cased extension is `.jpg` or `.jpeg`, that is,
      the extension is one of them up to case. */
  function IsJpg(f: string): (b: bool)
    ensures b <==> EqualIgnoringCase(Ext(f), ".jpg") || EqualIgnoringCase(Ext(f), ".jpeg")
  {
    var e := Ext(f);
    LowerMatches(e, ".jpg");
    LowerMatches(e, ".jpeg");
    Lower(e) == ".jpg" || Lower(e) == ".jpeg"
  }

  function IsPng(f: string): (b: bool)
    ensures b <==> EqualIgnoringCase(Ext(f), ".png")
  {
    var e := Ext(f);
    LowerMatches(e, ".png");
    Lower(e) == ".png"
  }

  function IsMov(f: string): (b: bool)
    ensures b <==> EqualIgnoringCase(Ext(f), ".mov")
  {
    var e := Ext(f);
    LowerMatches(e, ".mov");
    Lower(e) == ".mov"
  }

  function IsMp4(f: string): (b: bool)
    ensures b <==> EqualIgnoringCase(Ext(f), ".mp4")
  {
    var e := Ext(f);
    LowerMatches(e, ".mp4");
    Lower(e) == ".mp4"
  }

  function IsM4v(f: string): (b: bool)
    ensures b <==> EqualIgnoringCase(Ext(f), ".m4v")
  {
    var e := Ext(f);
    LowerMatches(e, ".m4v");
    Lower(e) == ".m4v"
  }

  datatype MediaKind = Jpeg | Png | Mov | Mp4 | M4v | Other

  /** The first classifier that says yes, in the order the scripts ask them.
      The classifiers never overlap, so the order does not matter: a file is
      of a kind exactly when that kind's classifier accepts it, and of no kind
      when none does. */
  function Kind(f: string): (k: MediaKind)
    ensures k == Jpeg <==> IsJpg(f)
    ensures k == Png <==> IsPng(f)
    ensures k == Mov <==> IsMov(f)
    ensures k == Mp4 <==> IsMp4(f)
    ensures k == M4v <==> IsM4v(f)
    ensures k != Other <==> Lower(Ext(f)) in Accepted(k)
    ensures k == Other <==> !(IsJpg(f) || IsPng(f) || IsMov(f) || IsMp4(f) || IsM4v(f))
  {
    if IsJpg(f) then Jpeg
    else if IsPng(f) then Png
    else if IsMov(f) then Mov
    else if IsMp4(f) then Mp4
    else if IsM4v(f) then M4v
    else Other
  }

  /** The lower-cased extensions each kind accepts. */
  function Accepted(kind: MediaKind): seq<string>
  {
    match kind
    case Jpeg => [".jpg", ".jpeg"]
    case Png => [".png"]
    case Mov => [".mov"]
    case Mp4 => [".mp4"]
    case M4v => [".m4v"]
    case Other => []
  }

  /** A name whose stem has no dot and does not start one, followed by a dot
      and a suffix without dots or slashes, has that suffix as its extension. */
  lemma ExtOfSimpleName(stem: string, ext: string)
    requires stem != [] && '/' !in stem && '.' !in stem
    requires |ext| >= 1 && ext[0] == '.' && '.' !in ext[1..] && '/' !in ext
    ensures Ext(stem + ext) == ext
  {
    var p := stem + ext;
    assert '/' !in p;
    var d := LastIndex(p, '.');
    assert p[|stem|] == '.';
    assert forall k :: 0 <= k < |stem| ==> p[k] == stem[k];
    assert forall k :: |stem| < k < |p| ==> p[k] == ext[1..][k - |stem| - 1];
    assert d == |stem|;
    assert p[0] == stem[0];
    assert HasNonDot(p, 0, d);
    assert p[d..] == ext;
  }

  /** A name that is a dot followed by a suffix without dots or slashes is a
      hidden file without extension. */
  lemma HiddenNameHasNoExt(suffix: string)
    requires '.' !in suffix && '/' !in suffix
    ensures Ext("." + suffix) == []
  {
    var p := "." + suffix;
    assert '/' !in p;
    assert p[1..] == suffix;
    assert LastIndex(p, '.') == 0;
  }

  /** Case does not matter, and `.jpeg` is a JPEG too. */
  lemma UpperCaseJpg()
    ensures IsJpg("IMG_0001.JPG")
  {
    ExtOfSimpleName("IMG_0001", ".JPG");
    assert "IMG_0001" + ".JPG" == "IMG_0001.JPG";
    assert Lower(".JPG") == ".jpg";
  }

  lemma MixedCaseJpeg()
    ensures IsJpg("scan.Jpeg")
  {
    ExtOfSimpleName("scan", ".Jpeg");
    assert "scan" + ".Jpeg" == "scan.Jpeg";
    assert Lower(".Jpeg") == ".jpeg";
  }

  /** A name that is only a dot and an extension is a hidden file without one. */
  lemma HiddenJpgIsNotJpg()
    ensures !IsJpg(".jpg")
  {
    HiddenNameHasNoExt("jpg");
    assert "." + "jpg" == ".jpg";
    assert Lower([]) == [];
  }

  /** The first of the given tags that the record has, or None: the last
      lookup of each `get_*_date` is unconditional and raises KeyError when
      the tag is absent. */
  function FirstPresent(metadata: map<string, string>, tags: seq<string>): (r: Option<string>)
    ensures r.None? <==> forall i :: 0 <= i < |tags| ==> tags[i] !in metadata
    ensures r.Some? ==> exists i :: 0 <= i < |tags| && tags[i] in metadata && r.value == metadata[tags[i]]
                          && forall j :: 0 <= j < i ==> tags[j] !in metadata
  {
    if tags == [] then None
    else if tags[0] in metadata then Some(metadata[tags[0]])
    else
      var r := FirstPresent(metadata, tags[1..]);
      assert forall i :: 1 <= i < |tags| ==> tags[i] == tags[1..][i - 1];
      if r.Some? then
        ghost var i :| 0 <= i < |tags[1..]| && tags[1..][i] in metadata && r.value == metadata[tags[1..][i]]
                        && forall j :: 0 <= j < i ==> tags[1..][j] !in metadata;
        assert tags[i + 1] == tags[1..][i];
        r
      else r
  }

  /** The tags each `get_*_date` consults, in order of preference. */
  function DateTags(kind: MediaKind): seq<string>
  {
    match kind
    case Jpeg => ["EXIF:DateTimeOriginal", "EXIF:CreateDate", "File:FileModifyDate"]
    case Png => ["EXIF:DateTimeOriginal", "File:FileModifyDate"]
    case Mov => ["QuickTime:CreationDate", "File:FileModifyDate"]
    case Mp4 => ["QuickTime:CreateDate", "File:FileModifyDate"]
    case M4v => ["QuickTime:ContentCreateDate", "File:FileModifyDate"]
    case Other => []
  }

  /** `get_jpg_date`, up to `get_date`: the date string it parses, the first
      of DateTimeOriginal, CreateDate and FileModifyDate the record has. */
  function JpgDateString(metadata: map<string, string>): (r: Option<string>)
    ensures r == FirstPresent(metadata, DateTags(Jpeg))
    ensures "File:FileModifyDate" in metadata ==> r.Some?
  {
    assert DateTags(Jpeg)[1..] == ["EXIF:CreateDate", "File:FileModifyDate"];
    if "EXIF:DateTimeOriginal" in metadata then Some(metadata["EXIF:DateTimeOriginal"])
    else FallbackDateString(metadata, "EXIF:CreateDate")
  }

  /** `get_png_date`, `get_mov_date`, `get_mp4_date` and `get_m4v_date`: one
      preferred tag, then the file modification date. */
  function FallbackDateString(metadata: map<string, string>, preferred: string): (r: Option<string>)
    ensures r == FirstPresent(metadata, [preferred, "File:FileModifyDate"])
    ensures "File:FileModifyDate" in metadata ==> r.Some?
  {
    var tags := [preferred, "File:FileModifyDate"];
    assert tags[1..] == ["File:FileModifyDate"];
    assert tags[1..][1..] == [];
    if preferred in metadata then Some(metadata[preferred])
    else if "File:FileModifyDate" in metadata then Some(metadata["File:FileModifyDate"])
    else None
  }

  /** `get_png_date`: DateTimeOriginal, then FileModifyDate. */
  function PngDateString(metadata: map<string, string>): (r: Option<string>)
    ensures r == FirstPresent(metadata, DateTags(Png))
    ensures "File:FileModifyDate" in metadata ==> r.Some?
  {
    FallbackDateString(metadata, "EXIF:DateTimeOriginal")
  }

  /** `get_mov_date`: QuickTime CreationDate, then FileModifyDate. */
  function MovDateString(metadata: map<string, string>): (r: Option<string>)
    ensures r == FirstPresent(metadata, DateTags(Mov))
    ensures "File:FileModifyDate" in metadata ==> r.Some?
  {
    FallbackDateString(metadata, "QuickTime:CreationDate")
  }

  /** `get_mp4_date`: QuickTime CreateDate, then FileModifyDate. */
  function Mp4DateString(metadata: map<string, string>): (r: Option<string>)
    ensures r == FirstPresent(metadata, DateTags(Mp4))
    ensures "File:FileModifyDate" in metadata ==> r.Some?
  {
    FallbackDateString(metadata, "QuickTime:CreateDate")
  }

  /** `get_m4v_date`: QuickTime ContentCreateDate, then FileModifyDate. */
  function M4vDateString(metadata: map<string, string>): (r: Option<string>)
    ensures r == FirstPresent(metadata, DateTags(M4v))
    ensures "File:FileModifyDate" in metadata ==> r.Some?
  {
    FallbackDateString(metadata, "QuickTime:ContentCreateDate")
  }
}
