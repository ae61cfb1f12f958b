/** `get_media_metadata.py`: walk the files, read each one's time tags with
    exiftool and, per media kind, keep every distinct tuple of tag names seen,
    with the first file that showed it as an example. The set of tag-name
    tuples of each kind and the list of example files are objects the script
    updates in place. What exiftool reports for a name is given as `keysOf`:
    the tag names of its record, or None when the read raised. */
module MediaSurvey {
  import opened Text
  import opened Walk
  import opened MediaKinds

  /** A Python `set` of tag-name tuples. */
  class TagSet {
    var tags: set<seq<string>>

    constructor ()
      ensures tags == {}
    {
      tags := {};
    }
  }

  /** A Python `list` of file names. */
  class ExampleList {
    var files: seq<string>

    constructor ()
      ensures files == []
    {
      files := [];
    }
  }

  /** `add_example_tags(new_tags, tag_set, new_file, example_list)`: a tuple
      not seen before is added, and the file is appended as its example. */
  method AddExampleTags(newTags: seq<string>, tagSet: TagSet, newFile: string, exampleList: ExampleList)
    modifies tagSet, exampleList
    ensures newTags in tagSet.tags
    ensures newTags in old(tagSet.tags) ==> tagSet.tags == old(tagSet.tags) && exampleList.files == old(exampleList.files)
    ensures newTags !in old(tagSet.tags) ==>
      tagSet.tags == old(tagSet.tags) + {newTags} && exampleList.files == old(exampleList.files) + [newFile]
  {
    if newTags !in tagSet.tags {
      tagSet.tags := tagSet.tags + {newTags};
      exampleList.files := exampleList.files + [newFile];
    }
  }

  /** The five sets and the example list as values. */
  datatype Catalog = Catalog(
    jpg: set<seq<string>>, png: set<seq<string>>, mov: set<seq<string>>,
    mp4: set<seq<string>>, m4v: set<seq<string>>, examples: seq<string>)

  const Empty := Catalog({}, {}, {}, {}, {}, [])

  /** The set that collects files of the given kind; nothing collects other
      files. */
  function TagsOf(c: Catalog, kind: MediaKind): set<seq<string>>
  {
    match kind
    case Jpeg => c.jpg
    case Png => c.png
    case Mov => c.mov
    case Mp4 => c.mp4
    case M4v => c.m4v
    case Other => {}
  }

  /** The total number of tuples collected. */
  function Total(c: Catalog): nat
  {
    |c.jpg| + |c.png| + |c.mov| + |c.mp4| + |c.m4v|
  }

  /** `add_example_tags` on the set of the given kind. The tuple ends up in
      its kind's set and no other set changes; a new tuple adds one element to
      the set and one example at the end of the list, a known one changes
      nothing; a file of no listed kind changes nothing. */
  function AddExample(c: Catalog, kind: MediaKind, keys: seq<string>, f: string): (d: Catalog)
    ensures kind == Other ==> d == c
    ensures kind != Other ==> keys in TagsOf(d, kind)
    ensures forall other :: other != kind ==> TagsOf(d, other) == TagsOf(c, other)
    ensures keys in TagsOf(c, kind) ==> d == c
    ensures kind != Other && keys !in TagsOf(c, kind) ==>
      TagsOf(d, kind) == TagsOf(c, kind) + {keys} && d.examples == c.examples + [f]
      && |TagsOf(d, kind)| == |TagsOf(c, kind)| + 1
  {
    if kind == Other || keys in TagsOf(c, kind) then c
    else
      var grown := TagsOf(c, kind) + {keys};
      assert |grown| == |TagsOf(c, kind)| + 1;
      WithTags(c.(examples := c.examples + [f]), kind, grown)
  }

  /** The catalogue with the set of one listed kind replaced. */
  function WithTags(c: Catalog, kind: MediaKind, tags: set<seq<string>>): (d: Catalog)
    requires kind != Other
    ensures TagsOf(d, kind) == tags && d.examples == c.examples
    ensures forall other :: other != kind ==> TagsOf(d, other) == TagsOf(c, other)
  {
    match kind
    case Jpeg => c.(jpg := tags)
    case Png => c.(png := tags)
    case Mov => c.(mov := tags)
    case Mp4 => c.(mp4 := tags)
    case M4v => c.(m4v := tags)
  }

  /** One file of the walk: read its tags, then add them to the set of the
      first classifier that accepts its name. A file goes into at most one
      set, the one of its kind; a file of no listed kind, or one whose read
      raised, changes nothing. */
  function Visit(c: Catalog, e: Entry, keysOf: string -> Option<seq<string>>): (d: Catalog)
    ensures forall kind :: kind != Kind(e.name) ==> TagsOf(d, kind) == TagsOf(c, kind)
    ensures Kind(e.name) == Other || keysOf(e.name).None? ==> d == c
    ensures Kind(e.name) != Other && keysOf(e.name).Some? ==> keysOf(e.name).value in TagsOf(d, Kind(e.name))
  {
    match keysOf(e.name)
    case None => c
    case Some(keys) => AddExample(c, Kind(e.name), keys, e.name)
  }

  /** The collections after visiting the given files in order, starting from
      empty ones: there is one example per collected tuple. */
  function Survey(entries: seq<Entry>, keysOf: string -> Option<seq<string>>): (c: Catalog)
    ensures |c.examples| == Total(c)
  {
    if entries == [] then Empty
    else
      var before := Survey(entries[..|entries| - 1], keysOf);
      var e := entries[|entries| - 1];
      VisitKeepsCount(before, e, keysOf);
      Visit(before, e, keysOf)
  }

  /** Adding a tuple adds an example exactly when the tuple is new. */
  lemma AddKeepsCount(c: Catalog, kind: MediaKind, keys: seq<string>, f: string)
    ensures |AddExample(c, kind, keys, f).examples| + Total(c) == |c.examples| + Total(AddExample(c, kind, keys, f))
  {
    var d := AddExample(c, kind, keys, f);
    if kind != Other && keys !in TagsOf(c, kind) {
      assert |d.examples| == |c.examples| + 1;
      match kind
      case Jpeg => assert d.jpg == c.jpg + {keys} && d.(jpg := c.jpg) == c.(examples := d.examples);
      case Png => assert d.png == c.png + {keys} && d.(png := c.png) == c.(examples := d.examples);
      case Mov => assert d.mov == c.mov + {keys} && d.(mov := c.mov) == c.(examples := d.examples);
      case Mp4 => assert d.mp4 == c.mp4 + {keys} && d.(mp4 := c.mp4) == c.(examples := d.examples);
      case M4v => assert d.m4v == c.m4v + {keys} && d.(m4v := c.m4v) == c.(examples := d.examples);
    }
  }

  /** One visit adds an example exactly when it adds a tuple. */
  lemma VisitKeepsCount(c: Catalog, e: Entry, keysOf: string -> Option<seq<string>>)
    ensures |Visit(c, e, keysOf).examples| + Total(c) == |c.examples| + Total(Visit(c, e, keysOf))
  {
    if keysOf(e.name).Some? {
      AddKeepsCount(c, Kind(e.name), keysOf(e.name).value, e.name);
    }
  }

  lemma SurveyNext(seen: seq<Entry>, e: Entry, keysOf: string -> Option<seq<string>>)
    ensures Survey(seen + [e], keysOf) == Visit(Survey(seen, keysOf), e, keysOf)
  {
    assert (seen + [e])[..|seen|] == seen;
  }

  /** The collections the objects hold. */
  function CatalogOf(jpgTags: TagSet, pngTags: TagSet, movTags: TagSet, mp4Tags: TagSet, m4vTags: TagSet,
                     examples: ExampleList): Catalog
    reads jpgTags, pngTags, movTags, mp4Tags, m4vTags, examples
  {
    Catalog(jpgTags.tags, pngTags.tags, movTags.tags, mp4Tags.tags, m4vTags.tags, examples.files)
  }

  /** The body of the inner loop, for one file: the `try` block that reads the
      tags, then the `is_*` chain into `add_example_tags`. */
  method VisitFile(e: Entry, keysOf: string -> Option<seq<string>>,
                   jpgTags: TagSet, pngTags: TagSet, movTags: TagSet, mp4Tags: TagSet, m4vTags: TagSet,
                   examples: ExampleList)
    requires jpgTags != pngTags && jpgTags != movTags && jpgTags != mp4Tags && jpgTags != m4vTags
    requires pngTags != movTags && pngTags != mp4Tags && pngTags != m4vTags
    requires movTags != mp4Tags && movTags != m4vTags && mp4Tags != m4vTags
    modifies jpgTags, pngTags, movTags, mp4Tags, m4vTags, examples
    ensures CatalogOf(jpgTags, pngTags, movTags, mp4Tags, m4vTags, examples)
         == Visit(old(CatalogOf(jpgTags, pngTags, movTags, mp4Tags, m4vTags, examples)), e, keysOf)
  {
    var f := e.name;
    ghost var before := CatalogOf(jpgTags, pngTags, movTags, mp4Tags, m4vTags, examples);
    var metadata := keysOf(f);
    if metadata.Some? {
      var keys := metadata.value;
      assert Visit(before, e, keysOf) == AddExample(before, Kind(f), keys, f);
      if IsJpg(f) {
        AddExampleTags(keys, jpgTags, f, examples);
        assert Kind(f) == Jpeg;
      } else if IsPng(f) {
        AddExampleTags(keys, pngTags, f, examples);
        assert Kind(f) == Png;
      } else if IsMov(f) {
        AddExampleTags(keys, movTags, f, examples);
        assert Kind(f) == Mov;
      } else if IsMp4(f) {
        AddExampleTags(keys, mp4Tags, f, examples);
        assert Kind(f) == Mp4;
      } else if IsM4v(f) {
        AddExampleTags(keys, m4vTags, f, examples);
        assert Kind(f) == M4v;
      } else {
        assert Kind(f) == Other;
      }
    }
  }

  /** The `__main__` loop: five empty sets and an empty list, then every file of
      the walk visited in order. */
  method SurveyTags(walk: seq<WalkDir>, keysOf: string -> Option<seq<string>>) returns (c: Catalog)
    ensures c == Survey(Entries(walk), keysOf)
  {
    var examples := new ExampleList();
    var jpgTags := new TagSet();
    var pngTags := new TagSet();
    var movTags := new TagSet();
    var mp4Tags := new TagSet();
    var m4vTags := new TagSet();
    ghost var seen := [];
    for i := 0 to |walk|
      invariant seen == Entries(walk[..i])
      invariant CatalogOf(jpgTags, pngTags, movTags, mp4Tags, m4vTags, examples) == Survey(seen, keysOf)
    {
      var files := walk[i].files;
      assert seen + DirEntries(walk[i])[..0] == seen;
      for j := 0 to |files|
        invariant seen == Entries(walk[..i]) + DirEntries(walk[i])[..j]
        invariant CatalogOf(jpgTags, pngTags, movTags, mp4Tags, m4vTags, examples) == Survey(seen, keysOf)
      {
        var e := Entry(walk[i].dirpath, files[j]);
        VisitStep(walk, i, j);
        SurveyNext(seen, e, keysOf);
        seen := seen + [e];
        VisitFile(e, keysOf, jpgTags, pngTags, movTags, mp4Tags, m4vTags, examples);
      }
      DirDone(walk, i);
    }
    assert walk[..|walk|] == walk;
    c := CatalogOf(jpgTags, pngTags, movTags, mp4Tags, m4vTags, examples);
  }
}
