/** `generate_toomics_json`: the manifest of comic directories already on disk.
    Each all-digit subdirectory is an episode, taken in order of its number;
    its images are the `episode_{n}_*.webp` files, taken in order of the
    number after their last "_". */
module GenerateJson {
  import opened Wrappers
  import opened Seqs
  import opened Text
  import opened StableSort

  /** One name of a comic directory's listing: whether it is a directory and,
      for a directory, the names it lists in turn. */
  datatype Listing = Listing(name: String, isDir: bool, files: seq<String>)

  /** A comic directory: its path and its listing, in `os.listdir` order. */
  datatype ComicDir = ComicDir(path: String, entries: seq<Listing>)

  datatype EpisodeJson = EpisodeJson(
    isLocked: bool, parentTitle: String, title: String, date: String,
    thumbnail: Option<String>, slag: String, images: seq<String>)

  datatype ComicJson = ComicJson(
    title: String, originalTitle: String, description: String, thumbnail: String,
    thumbnailBackground: Option<String>, previewThumbnail: Option<String>,
    genres: seq<String>, tags: seq<String>, episodes: seq<EpisodeJson>)

  predicate IntLe(a: int, b: int) { a <= b }

  lemma IntLeTotalPreorder()
    ensures TotalPreorder(IntLe)
  {
  }

  // ---------------------------------------------------------------------
  // Episode directories

  /** A subdirectory whose name is all digits. */
  predicate IsEpisodeDir(l: Listing) { l.isDir && IsDigits(l.name) }

  /** `int(d)` for an episode directory. */
  function DirNumber(l: Listing): int {
    if IsDigits(l.name) then DigitsValue(l.name) else 0
  }

  /** The episode directories, sorted by number; equal numbers ("1", "01")
      keep their listing order. */
  function EpisodeDirs(entries: seq<Listing>): seq<Listing> {
    SortBy(Filter(entries, IsEpisodeDir), DirNumber, IntLe)
  }

  /** The episode directories are exactly the all-digit subdirectories, each as
      often as it is listed, in non-decreasing order of number, and directories
      with the same number keep their listing order. */
  lemma EpisodeDirsSpec(entries: seq<Listing>)
    ensures forall l :: l in EpisodeDirs(entries) <==> l in entries && IsEpisodeDir(l)
    ensures multiset(EpisodeDirs(entries)) == multiset(Filter(entries, IsEpisodeDir))
    ensures SortedBy(EpisodeDirs(entries), DirNumber, IntLe)
    ensures Distinct(entries) ==> StableWrt(EpisodeDirs(entries), Filter(entries, IsEpisodeDir), DirNumber, IntLe)
  {
    var dirs := Filter(entries, IsEpisodeDir);
    SortByPermutes(dirs, DirNumber, IntLe);
    FilterMembers(entries, IsEpisodeDir);
    forall l ensures l in EpisodeDirs(entries) <==> l in dirs {
      assert l in EpisodeDirs(entries) <==> l in multiset(EpisodeDirs(entries));
    }
    IntLeTotalPreorder();
    SortByIsSorted(dirs, DirNumber, IntLe);
    if Distinct(entries) {
      FilterDistinct(entries, IsEpisodeDir);
      SortByIsStable(dirs, DirNumber, IntLe);
    }
  }

  // ---------------------------------------------------------------------
  // Episode images

  /** `f.startswith(f"episode_{n}_") and f.endswith(".webp")`. */
  predicate IsEpisodeImage(n: String, f: String) {
    StartsWith(f, "episode_" + n + "_") && EndsWith(f, ".webp")
  }

  /** Whether a file name is an image of episode directory `n`. */
  function ImageOf(n: String): String -> bool {
    f => IsEpisodeImage(n, f)
  }

  /** The image files of episode directory `n`, in listing order. */
  function Matching(n: String, files: seq<String>): seq<String> {
    Filter(files, ImageOf(n))
  }

  /** `f.split("_")[-1].split(".")[0]`: up to the first "." after the last "_". */
  function KeyText(f: String): String {
    BeforeFirst(AfterLast(f, '_'), '.')
  }

  /** The sort key `int(...)` of an image file; None is the ValueError. */
  function ImageKey(f: String): Option<int> {
    ParsePyInt(KeyText(f))
  }

  predicate Unparsable(f: String) { ImageKey(f).None? }

  function KeyOrZero(f: String): int {
    if ImageKey(f).Some? then ImageKey(f).value else 0
  }

  /** The images of episode directory `n`: its image files sorted by key, or
      the ValueError the sort raises, since it computes every key before it
      compares any. */
  function EpisodeImages(n: String, files: seq<String>): Fallible<seq<String>> {
    var matching := Matching(n, files);
    if Any(matching, Unparsable) then Threw
    else Returned(SortBy(matching, KeyOrZero, IntLe))
  }

  /** The sort raises exactly when some image file of the episode has a key
      that is not an integer. */
  lemma EpisodeImagesRaise(n: String, files: seq<String>)
    ensures EpisodeImages(n, files).Threw? <==>
      exists f :: f in files && IsEpisodeImage(n, f) && ImageKey(f).None?
  {
    var matching := Matching(n, files);
    AnyIff(matching, Unparsable);
    FilterMembers(files, ImageOf(n));
    if Any(matching, Unparsable) {
      var i :| 0 <= i < |matching| && Unparsable(matching[i]);
      assert matching[i] in matching;
    } else {
      forall f | f in files && IsEpisodeImage(n, f) ensures !Unparsable(f) {
        assert f in matching;
      }
    }
  }

  /** When the sort does not raise, the images are exactly the episode's image
      files, each as often as listed. */
  lemma EpisodeImagesPermutes(n: String, files: seq<String>)
    requires EpisodeImages(n, files).Returned?
    ensures multiset(EpisodeImages(n, files).value) == multiset(Matching(n, files))
    ensures forall f :: f in EpisodeImages(n, files).value <==> f in files && IsEpisodeImage(n, f)
  {
    var matching := Matching(n, files);
    var sorted := SortBy(matching, KeyOrZero, IntLe);
    FilterMembers(files, ImageOf(n));
    SortByPermutes(matching, KeyOrZero, IntLe);
    forall f ensures f in sorted <==> f in matching {
      assert f in sorted <==> f in multiset(sorted);
    }
  }

  /** Each image's key is then an integer, and the images come in
      non-decreasing order of key. */
  lemma EpisodeImagesOrdered(n: String, files: seq<String>)
    requires EpisodeImages(n, files).Returned?
    ensures forall f :: f in EpisodeImages(n, files).value ==> ImageKey(f) == Some(KeyOrZero(f))
    ensures SortedBy(EpisodeImages(n, files).value, KeyOrZero, IntLe)
  {
    var matching := Matching(n, files);
    var sorted := SortBy(matching, KeyOrZero, IntLe);
    AnyIff(matching, Unparsable);
    EpisodeImagesPermutes(n, files);
    forall f | f in sorted ensures ImageKey(f) == Some(KeyOrZero(f)) {
      assert f in matching by {
        FilterMembers(files, ImageOf(n));
      }
      var i :| 0 <= i < |matching| && matching[i] == f;
    }
    IntLeTotalPreorder();
    SortByIsSorted(matching, KeyOrZero, IntLe);
  }

  /** Image files with equal keys keep their listing order. */
  lemma EpisodeImagesStable(n: String, files: seq<String>)
    requires Distinct(files) && EpisodeImages(n, files).Returned?
    ensures StableWrt(EpisodeImages(n, files).value, Matching(n, files), KeyOrZero, IntLe)
  {
    FilterDistinct(files, ImageOf(n));
    IntLeTotalPreorder();
    SortByIsStable(Matching(n, files), KeyOrZero, IntLe);
  }

  /** The file name `episode_{n}_{i}.webp` the scrapers write. */
  function ImageFileName(n: String, i: nat): String {
    "episode_" + n + "_" + NatToString(i) + ".webp"
  }

  /** Such a name is an image of episode `n`, and its key is `i`. */
  lemma ImageFileNameKey(n: String, i: nat)
    ensures IsEpisodeImage(n, ImageFileName(n, i))
    ensures ImageKey(ImageFileName(n, i)) == Some(i)
  {
    var head := "episode_" + n;
    var digits := NatToString(i);
    var tail := digits + ".webp";
    AppendAssoc(head + "_", digits, ".webp");
    assert ImageFileName(n, i) == head + ['_'] + tail;
    assert '_' !in tail by {
      assert forall k :: 0 <= k < |digits| ==> IsAsciiDigit(tail[k]);
    }
    AfterLastAppend(head, '_', tail);
    assert '.' !in digits by {
      assert forall k :: 0 <= k < |digits| ==> IsAsciiDigit(digits[k]);
    }
    assert tail == digits + ['.'] + "webp";
    BeforeFirstAppend(digits, '.', "webp");
    ParsePyIntDigits(digits);
  }

  /** The name `episode_{n}_{w}.webp` of a word `w` (such as "cover"). */
  function WordImageName(n: String, w: String): String {
    "episode_" + n + "_" + w + ".webp"
  }

  /** Such a name is an image file of episode `n`... */
  lemma WordImageIsImage(n: String, w: String)
    ensures IsEpisodeImage(n, WordImageName(n, w))
  {
    var head := "episode_" + n + "_";
    AppendAssoc(head, w, ".webp");
    ConcatAffixes(head, w + ".webp");
    ConcatAffixes(head + w, ".webp");
  }

  /** ...whose key does not parse when the word begins with a letter. */
  lemma WordImageKey(n: String, w: String)
    requires w != [] && IsAsciiLetter(w[0]) && '_' !in w && '.' !in w
    ensures Unparsable(WordImageName(n, w))
  {
    var tail := w + ".webp";
    assert AfterLast(WordImageName(n, w), '_') == tail by {
      AppendAssoc("episode_" + n + "_", w, ".webp");
      assert WordImageName(n, w) == "episode_" + n + ['_'] + tail;
      AfterLastAppend("episode_" + n, '_', tail);
    }
    assert BeforeFirst(tail, '.') == w by {
      assert tail == w + ['.'] + "webp";
      BeforeFirstAppend(w, '.', "webp");
    }
    ParsePyIntLetter(w);
  }

  /** So one image file named by a word (a cover image, say) among the files
      of an episode directory makes its sort raise. */
  lemma WordImageRaises(n: String, w: String, files: seq<String>)
    requires w != [] && IsAsciiLetter(w[0]) && '_' !in w && '.' !in w
    requires WordImageName(n, w) in files
    ensures EpisodeImages(n, files).Threw?
  {
    WordImageIsImage(n, w);
    WordImageKey(n, w);
    EpisodeImagesRaise(n, files);
  }

  // ---------------------------------------------------------------------
  // Records

  /** Some name of the listing is `name` (`os.path.exists`). */
  predicate Listed(entries: seq<Listing>, name: String) {
    exists i :: 0 <= i < |entries| && entries[i].name == name
  }

  function IfListed(entries: seq<Listing>, name: String): Option<String> {
    if Listed(entries, name) then Some(name) else None
  }

  /** The record of episode directory `dir` whose sorted images are `images`. */
  function EpisodeOf(comic: String, dir: Listing, images: seq<String>): EpisodeJson {
    EpisodeJson(false, comic, "episode " + dir.name, "",
                if "thumbnail.jpg" in dir.files then Some("thumbnail.jpg") else None,
                "episode-" + dir.name, images)
  }

  /** The record of one episode directory, or the ValueError of its sort. */
  function EpisodeRecord(comic: String, dir: Listing): Fallible<EpisodeJson> {
    var images := EpisodeImages(dir.name, dir.files);
    if images.Threw? then Threw else Returned(EpisodeOf(comic, dir, images.value))
  }

  function RecordOf(comic: String): Listing -> Fallible<EpisodeJson> {
    dir => EpisodeRecord(comic, dir)
  }

  /** The episodes of a comic: one record per episode directory in sorted
      order, or the ValueError of the first directory whose sort raises. */
  function Episodes(comic: String, dirs: seq<Listing>): Fallible<seq<EpisodeJson>> {
    MapAll(dirs, RecordOf(comic))
  }

  /** `os.path.basename`: the text after the last "/". */
  function BaseName(path: String): String { AfterLast(path, '/') }

  /** The comic record around its episodes. */
  function ComicOf(dir: ComicDir, episodes: seq<EpisodeJson>): ComicJson {
    var name := BaseName(dir.path);
    ComicJson(name, name, "", "thumbnail.jpg",
              IfListed(dir.entries, "thumbnail_background.jpg"),
              IfListed(dir.entries, "preview-thumbnail.jpg"),
              [], ["#Outdoors", "#Cougar"], episodes)
  }

  function Comic(dir: ComicDir): Fallible<ComicJson> {
    var episodes := Episodes(BaseName(dir.path), EpisodeDirs(dir.entries));
    if episodes.Threw? then Threw else Returned(ComicOf(dir, episodes.value))
  }

  /** The whole manifest: one record per comic directory, or the ValueError. */
  function Manifest(dirs: seq<ComicDir>): Fallible<seq<ComicJson>> {
    MapAll(dirs, Comic)
  }

  /** A comic raises exactly when the image sort of one of its episode
      directories raises. */
  lemma ComicRaises(dir: ComicDir)
    ensures Comic(dir).Threw? <==>
      exists d :: d in EpisodeDirs(dir.entries) && EpisodeImages(d.name, d.files).Threw?
  {
    var dirs := EpisodeDirs(dir.entries);
    MapAllSpec(dirs, RecordOf(BaseName(dir.path)));
    if Comic(dir).Threw? {
      var k :| 0 <= k < |dirs| && RecordOf(BaseName(dir.path))(dirs[k]).Threw?;
      assert dirs[k] in dirs;
    }
  }

  /** A comic record: title and original title are the directory's base name,
      the optional thumbnails are None exactly when their file is not listed,
      the tags are fixed, and there is one episode per episode directory. */
  lemma ComicSpec(dir: ComicDir)
    requires Comic(dir).Returned?
    ensures Comic(dir).value.title == Comic(dir).value.originalTitle == BaseName(dir.path)
    ensures Comic(dir).value.thumbnailBackground.None? <==> !Listed(dir.entries, "thumbnail_background.jpg")
    ensures Comic(dir).value.previewThumbnail.None? <==> !Listed(dir.entries, "preview-thumbnail.jpg")
    ensures Comic(dir).value.tags == ["#Outdoors", "#Cougar"] && Comic(dir).value.genres == []
    ensures |Comic(dir).value.episodes| == |EpisodeDirs(dir.entries)|
  {
    MapAllSpec(EpisodeDirs(dir.entries), RecordOf(BaseName(dir.path)));
  }

  /** The `k`-th episode of a comic record is the record of its `k`-th
      episode directory in sorted order, whose images sort without raising. */
  lemma ComicEpisode(dir: ComicDir, k: nat)
    requires Comic(dir).Returned? && k < |EpisodeDirs(dir.entries)|
    ensures k < |Comic(dir).value.episodes|
    ensures EpisodeImages(EpisodeDirs(dir.entries)[k].name, EpisodeDirs(dir.entries)[k].files).Returned?
    ensures Comic(dir).value.episodes[k] == EpisodeOf(BaseName(dir.path), EpisodeDirs(dir.entries)[k],
      EpisodeImages(EpisodeDirs(dir.entries)[k].name, EpisodeDirs(dir.entries)[k].files).value)
  {
    var dirs := EpisodeDirs(dir.entries);
    MapAllSpec(dirs, RecordOf(BaseName(dir.path)));
    assert RecordOf(BaseName(dir.path))(dirs[k]) == Returned(Comic(dir).value.episodes[k]);
  }

  /** That episode is unlocked, titled "episode {d}" with slug "episode-{d}"
      and no date, has a thumbnail exactly when the directory lists one, and
      holds that directory's sorted images. */
  lemma ComicEpisodeFields(dir: ComicDir, k: nat)
    requires Comic(dir).Returned? && k < |EpisodeDirs(dir.entries)|
    ensures k < |Comic(dir).value.episodes|
    ensures var e, d := Comic(dir).value.episodes[k], EpisodeDirs(dir.entries)[k];
      && !e.isLocked && e.parentTitle == BaseName(dir.path)
      && e.title == "episode " + d.name && e.slag == "episode-" + d.name && e.date == ""
      && (e.thumbnail.None? <==> "thumbnail.jpg" !in d.files)
      && EpisodeImages(d.name, d.files) == Returned(e.images)
  {
    ComicEpisode(dir, k);
  }

  /** The manifest raises exactly when one comic raises, and otherwise holds
      one record per comic directory, in order. */
  lemma ManifestSpec(dirs: seq<ComicDir>)
    ensures Manifest(dirs).Threw? <==> exists i :: 0 <= i < |dirs| && Comic(dirs[i]).Threw?
    ensures Manifest(dirs).Returned? ==>
      |Manifest(dirs).value| == |dirs| &&
      forall i :: 0 <= i < |dirs| ==> Comic(dirs[i]) == Returned(Manifest(dirs).value[i])
  {
    MapAllSpec(dirs, Comic);
  }

  // ---------------------------------------------------------------------
  // The loops

  /** `generate_toomics_json`: the records of the comic directories in turn;
      a ValueError from an image sort ends it. */
  method GenerateToomicsJson(dirs: seq<ComicDir>) returns (comics: Fallible<seq<ComicJson>>)
    ensures comics == Manifest(dirs)
  {
    var done: seq<ComicJson> := [];
    for i := 0 to |dirs|
      invariant Manifest(dirs[..i]) == Returned(done)
    {
      var comic := BuildComic(dirs[i]);
      MapAllSnoc(dirs[..i], dirs[i], Comic);
      TakeSnoc(dirs, i);
      if comic.Threw? {
        assert Manifest(dirs).Threw? by {
          MapAllSpec(dirs, Comic);
        }
        return Threw;
      }
      done := done + [comic.value];
    }
    TakeAll(dirs);
    comics := Returned(done);
  }

  /** One comic directory: its episode loop over the sorted episode
      directories. */
  method BuildComic(dir: ComicDir) returns (comic: Fallible<ComicJson>)
    ensures comic == Comic(dir)
  {
    var name := BaseName(dir.path);
    var dirs := EpisodeDirs(dir.entries);
    var episodes: seq<EpisodeJson> := [];
    for k := 0 to |dirs|
      invariant Episodes(name, dirs[..k]) == Returned(episodes)
    {
      var episode := BuildEpisode(name, dirs[k]);
      MapAllSnoc(dirs[..k], dirs[k], RecordOf(name));
      TakeSnoc(dirs, k);
      if episode.Threw? {
        assert Episodes(name, dirs).Threw? by {
          MapAllSpec(dirs, RecordOf(name));
        }
        return Threw;
      }
      episodes := episodes + [episode.value];
    }
    TakeAll(dirs);
    comic := Returned(ComicOf(dir, episodes));
  }

  /** One episode directory: its images sorted by key, then its record. */
  method BuildEpisode(comic: String, dir: Listing) returns (episode: Fallible<EpisodeJson>)
    ensures episode == EpisodeRecord(comic, dir)
  {
    var images := EpisodeImages(dir.name, dir.files);
    if images.Threw? {
      return Threw;
    }
    episode := Returned(EpisodeOf(comic, dir, images.value));
  }
}
