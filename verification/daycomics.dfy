/** The deterministic rules of the daycomics scraper: the lock classifier of
    the episode list, the reversal of that list, the per-episode rewrite of the
    episode records (skipping, titles, image names), the image extension rule,
    the title normalisation, the genre/tag split and the choice of the preview
    thumbnail. */
module Daycomics {
  import opened Wrappers
  import opened Seqs
  import opened Text
  import opened Fetch
  import opened Naming

  // ---------------------------------------------------------------------
  // download_image

  /** `download_image` is `Fetch.DownloadImage`; with its default of three
      attempts the call never raises and sends one request. */
  lemma DownloadImageNeverRaises(script: Script)
    ensures GiveUpEarly(script, 3).outcome != Raised
    ensures GiveUpEarly(script, 3).requests == 1
  {
    GiveUpEarlyRaises(script, 3);
    GiveUpEarlyVsRetry(script, 3);
  }

  // ---------------------------------------------------------------------
  // Lock classifier of the episode list script

  /** `button?.textContent.trim() || 'FREE'`: the label of the episode's coin
      button, "FREE" when there is no button or its label is blank. */
  function LockText(button: Option<String>): (t: String)
    ensures t != []
    ensures button.None? ==> t == "FREE"
  {
    if button.None? || JsTrim(button.value) == [] then "FREE" else JsTrim(button.value)
  }

  predicate HasLockWord(t: String) {
    Contains(t, "COINS") || Contains(t, "LOCKED") || Contains(t, "PREMIUM") || Contains(t, "PAID")
  }

  predicate HasOpenWord(t: String) {
    Contains(t, "FREE") || Contains(t, "VIEW") || Contains(t, "READ")
  }

  /** `/^\d+$/` matches and `parseInt` gives a positive number. */
  predicate IsPositiveCount(t: String) {
    IsDigits(t) && DigitsValue(t) > 0
  }

  /** The script first sets the flag for a lock word or a positive coin count,
      then clears it for an open word, an empty label or "0". */
  function IsLocked(t: String): bool {
    var locked := HasLockWord(t) || IsPositiveCount(t);
    if HasOpenWord(t) || t == "" || t == "0" then false else locked
  }

  /** A label is locked exactly when it holds a lock word or a positive count
      and no open word; a label made of digits is locked exactly when its
      value is positive; an episode without a button is open. */
  lemma LockSpec(t: String)
    ensures IsLocked(t) <==> (HasLockWord(t) || IsPositiveCount(t)) && !HasOpenWord(t)
    ensures IsDigits(t) ==> (IsLocked(t) <==> DigitsValue(t) > 0)
    ensures !IsLocked(LockText(None))
  {
    if t == "0" {
      assert IsDigits(t);
      assert DigitsValue(t) == 0 by {
        assert t[..0] == [];
      }
    }
    if IsDigits(t) {
      DigitsAvoid(t, "COINS");
      DigitsAvoid(t, "LOCKED");
      DigitsAvoid(t, "PREMIUM");
      DigitsAvoid(t, "PAID");
      DigitsAvoid(t, "FREE");
      DigitsAvoid(t, "VIEW");
      DigitsAvoid(t, "READ");
    }
    assert Contains("FREE", "FREE");
  }

  // ---------------------------------------------------------------------
  // Episode records

  /** An episode record as the list script returns it and the scraper then
      rewrites it: `slag` and `images` are keys the scraper adds, `url` a key
      it deletes. `thumbnail` is `None` where the script read a `data-src`
      attribute the image does not have (`null` in the page, `None` here). */
  datatype Entry = Entry(
    isLocked: bool,
    lockText: String,
    parentTitle: String,
    title: String,
    date: String,
    thumbnail: Option<String>,
    url: Option<String>,
    slag: Option<String>,
    images: Option<seq<String>>)

  /** The episode thumbnail the list script reads: the image's `src`, or its
      `data-src` attribute when `src` is the loading placeholder. */
  function EpisodeThumbnail(src: String, dataSrc: Option<String>): Option<String> {
    if Contains(src, "img_loading") then dataSrc else Some(src)
  }

  /** The record the list script builds for one episode link, given the coin
      button (if any), the texts it reads, the image's `src` and `data-src`,
      and the link's `href`. The lock flag is the classifier's verdict on the
      button label, and the thumbnail is missing only when the placeholder's
      `data-src` is. */
  function EntryOf(button: Option<String>, parentTitle: String, title: String, date: String,
                   src: String, dataSrc: Option<String>, href: String): (e: Entry)
    ensures e.lockText == LockText(button) && e.isLocked == IsLocked(e.lockText)
    ensures e.isLocked ==> button.Some?
    ensures e.parentTitle == parentTitle && e.date == date && e.url == Some(href)
    ensures e.slag.None? && e.images.None?
    ensures e.thumbnail.None? <==> Contains(src, "img_loading") && dataSrc.None?
  {
    var text := LockText(button);
    LockSpec(text);
    Entry(IsLocked(text), text, parentTitle, title, date, EpisodeThumbnail(src, dataSrc), Some(href), None, None)
  }

  /** `episodes.reverse()`: the list is shown newest first and processed
      oldest first. */
  method ReverseEpisodes(episodes: array<Entry>)
    modifies episodes
    ensures episodes[..] == Reverse(old(episodes[..]))
  {
    var n := episodes.Length;
    ghost var before := episodes[..];
    var i, j := 0, n - 1;
    while i < j
      invariant 0 <= i && i + j == n - 1 && i <= j + 1
      invariant forall k :: 0 <= k < i ==> episodes[k] == before[n - 1 - k]
      invariant forall k :: j < k < n ==> episodes[k] == before[n - 1 - k]
      invariant forall k :: i <= k <= j ==> episodes[k] == before[k]
    {
      Swap(episodes, i, j);
      i, j := i + 1, j - 1;
    }
    assert episodes[..] == Reverse(before);
  }

  /** Exchanges two records, leaving the others as they are. */
  method Swap(episodes: array<Entry>, i: nat, j: nat)
    requires i < episodes.Length && j < episodes.Length
    modifies episodes
    ensures episodes[i] == old(episodes[j]) && episodes[j] == old(episodes[i])
    ensures forall k :: 0 <= k < episodes.Length && k != i && k != j ==> episodes[k] == old(episodes[k])
  {
    episodes[i], episodes[j] := episodes[j], episodes[i];
  }

  /** The extension of an image URL: the text after the last "."; "jpg" when
      that contains "com"; then cut at the first "?". */
  function ImageExtension(url: String): (e: String)
    ensures '?' !in e
  {
    var ext := AfterLast(url, '.');
    var named := if Contains(ext, "com") then "jpg" else ext;
    CutQuery(named)
  }

  /** `e.split('?')[0]` when `e` holds a "?". */
  function CutQuery(e: String): (r: String)
    ensures '?' !in r
  {
    if '?' in e then BeforeFirst(e, '?') else e
  }

  /** The text after the last "." of `stem.ext?query`. */
  lemma AfterLastDot(stem: String, ext: String, query: String)
    requires '.' !in ext && '.' !in query
    ensures AfterLast(stem + "." + ext + "?" + query, '.') == ext + "?" + query
  {
    var x := ext + "?" + query;
    assert '.' !in x;
    AfterLastAppend(stem, '.', x);
    var h := stem + ".";
    AppendAssoc(h + ext, "?", query);
    AppendAssoc(h, ext, "?" + query);
    AppendAssoc(ext, "?", query);
  }

  /** An image URL `stem.ext?query` keeps `ext` when neither part says "com". */
  lemma ImageExtensionOf(stem: String, ext: String, query: String)
    requires '.' !in ext && '?' !in ext && '.' !in query
    requires !Contains(ext + "?" + query, "com")
    ensures ImageExtension(stem + "." + ext + "?" + query) == ext
  {
    AfterLastDot(stem, ext, query);
    BeforeFirstAppend(ext, '?', query);
  }

  /** The "com" test runs before the query is cut: a query mentioning "com"
      makes any image a "jpg". */
  lemma ImageExtensionComInQuery(stem: String, ext: String, query: String)
    requires '.' !in ext && '.' !in query
    requires Contains(query, "com")
    ensures ImageExtension(stem + "." + ext + "?" + query) == "jpg"
  {
    AfterLastDot(stem, ext, query);
    ContainsAfterPrefix(ext + "?", query, "com");
    assert CutQuery("jpg") == "jpg";
  }

  /** `f"Episode_{n}_{i + 1}.{ext}"`: the file written to disk. */
  function DiskName(n: nat, i: nat, ext: String): String {
    "Episode_" + NameTail(n, i, ext)
  }

  /** `f"episode_{n}_{i + 1}.{ext}"`: the name recorded in the manifest. */
  function ManifestName(n: nat, i: nat, ext: String): String {
    "episode_" + NameTail(n, i, ext)
  }

  /** The file on disk and the manifest entry differ in the case of their first
      letter and nowhere else. */
  lemma DiskAndManifestName(n: nat, i: nat, ext: String)
    ensures |DiskName(n, i, ext)| == |ManifestName(n, i, ext)|
    ensures DiskName(n, i, ext) == [UpperChar(ManifestName(n, i, ext)[0])] + ManifestName(n, i, ext)[1..]
    ensures DiskName(n, i, ext) != ManifestName(n, i, ext)
  {
    var tail := NameTail(n, i, ext);
    assert ManifestName(n, i, ext)[1..] == "pisode_" + tail;
    assert DiskName(n, i, ext) == "E" + ("pisode_" + tail);
  }

  /** Within an episode the manifest name determines the image's position and
      extension. */
  lemma ManifestNameInjective(n: nat, i: nat, j: nat, e: String, f: String)
    requires ManifestName(n, i, e) == ManifestName(n, j, f)
    ensures i == j && e == f
  {
    CancelPrefix("episode_", NameTail(n, i, e), NameTail(n, j, f));
    NameTailInjective(n, i, e, n, j, f);
  }

  /** The manifest names of an episode's images, one per collected URL. */
  function ManifestNames(n: nat, found: seq<String>): (names: seq<String>)
    ensures |names| == |found|
  {
    seq(|found|, i requires 0 <= i < |found| => ManifestName(n, i, ImageExtension(found[i])))
  }

  /** The manifest lists no image twice. */
  lemma ManifestNamesDistinct(n: nat, found: seq<String>)
    ensures Distinct(ManifestNames(n, found))
  {
    var names := ManifestNames(n, found);
    forall i, j | 0 <= i < j < |names| ensures names[i] != names[j] {
      if names[i] == names[j] {
        ManifestNameInjective(n, i, j, ImageExtension(found[i]), ImageExtension(found[j]));
      }
    }
  }

  /** Whether the pass over the episode at 1-based position `n` raises: from
      `start` on, `episode_thumbnail.split('.')` fails on a missing thumbnail.
      Nothing catches that error before the per-comic handler, so the loop
      stops there and the comic is dropped. */
  predicate Crashes(e: Entry, n: nat, start: int) {
    n >= start && e.thumbnail.None?
  }

  /** Whether a reached episode has its images collected: it has a non-empty
      URL and is not locked. */
  predicate IsOpen(e: Entry) {
    e.url.Some? && e.url.value != [] && !e.isLocked
  }

  /** What the pass over the episode at 1-based position `n`, whose page shows
      the image URLs `found`, leaves of its record. A pass that raises has
      already renamed the episode. */
  function Processed(e: Entry, n: nat, start: int, found: seq<String>): Entry {
    if n < start then e
    else
      var named := e.(title := "episode " + NatToString(n), slag := Some("episode-" + NatToString(n)));
      if named.thumbnail.None? then named
      else
        var local := named.(thumbnail := Some("thumbnail.jpg"));
        if !IsOpen(local) then local
        else local.(url := None, images := Some(ManifestNames(n, found)))
  }

  /** Episodes before `start` are left untouched; every other episode is titled
      by its position; unless its pass raises, its thumbnail becomes
      "thumbnail.jpg", and it gets images, and loses its URL, exactly when it
      is open, one manifest name per collected URL. The lock fields, the date
      and the comic title are never changed. */
  lemma ProcessedSpec(e: Entry, n: nat, start: int, found: seq<String>)
    ensures var r := Processed(e, n, start, found);
      && r.isLocked == e.isLocked && r.lockText == e.lockText
      && r.parentTitle == e.parentTitle && r.date == e.date
    ensures n < start ==> Processed(e, n, start, found) == e
    ensures var r := Processed(e, n, start, found);
      n >= start ==> r.title == "episode " + NatToString(n) && r.slag == Some("episode-" + NatToString(n))
    ensures var r := Processed(e, n, start, found);
      Crashes(e, n, start) ==> r.thumbnail.None? && r.images == e.images && r.url == e.url
    ensures var r := Processed(e, n, start, found);
      n >= start && !Crashes(e, n, start) ==> (
        && r.thumbnail == Some("thumbnail.jpg")
        && (!IsOpen(e) ==> r.images == e.images && r.url == e.url)
        && (IsOpen(e) ==> r.images == Some(ManifestNames(n, found)) && r.url.None?))
  {
  }

  /** For a record the list script built, the pass collects the images of the
      episode exactly when it is reached, its thumbnail is there, it has a URL
      and its button label is not classified locked. */
  lemma ImagesExactlyWhenUnlocked(button: Option<String>, parentTitle: String, title: String, date: String,
                                  src: String, dataSrc: Option<String>, href: String,
                                  n: nat, start: int, found: seq<String>)
    ensures var r := Processed(EntryOf(button, parentTitle, title, date, src, dataSrc, href), n, start, found);
      r.images.Some? <==>
        && n >= start
        && !(Contains(src, "img_loading") && dataSrc.None?)
        && href != []
        && !IsLocked(LockText(button))
    ensures var r := Processed(EntryOf(button, parentTitle, title, date, src, dataSrc, href), n, start, found);
      r.images.Some? ==> r.images.value == ManifestNames(n, found)
  {
    var e := EntryOf(button, parentTitle, title, date, src, dataSrc, href);
    ProcessedSpec(e, n, start, found);
  }

  /** The 0-based position, from `p` on, of the first episode whose pass
      raises, or the number of episodes when none does. */
  function FirstCrashFrom(entries: seq<Entry>, start: int, p: nat): (k: nat)
    requires p <= |entries|
    ensures p <= k <= |entries|
    ensures forall q :: p <= q < k ==> !Crashes(entries[q], q + 1, start)
    ensures k < |entries| ==> Crashes(entries[k], k + 1, start)
    decreases |entries| - p
  {
    if p == |entries| || Crashes(entries[p], p + 1, start) then p else FirstCrashFrom(entries, start, p + 1)
  }

  function FirstCrash(entries: seq<Entry>, start: int): nat {
    FirstCrashFrom(entries, start, 0)
  }

  /** The loop of `parse_daycomics` over the (reversed) episode list: it counts
      positions from 1, skips positions before `start`, rewrites the record in
      place and names the images of every open episode, until a pass raises.
      `pages(p)` are the image URLs the page of episode `p` shows; `net(p)(i)`
      decides the download of image `i`, which neither the names nor the
      manifest depend on. */
  method ProcessEpisodes(episodes: array<Entry>, start: int, pages: nat -> seq<String>, net: nat -> nat -> Script)
    returns (raised: bool)
    modifies episodes
    ensures raised <==> FirstCrash(old(episodes[..]), start) < episodes.Length
    ensures forall p :: 0 <= p < episodes.Length ==>
      episodes[p] == if p <= FirstCrash(old(episodes[..]), start)
                     then Processed(old(episodes[p]), p + 1, start, pages(p))
                     else old(episodes[p])
  {
    ghost var before := episodes[..];
    var current := 0;
    raised := false;
    var p := 0;
    while p < episodes.Length
      invariant p <= episodes.Length && current == p
      invariant p <= FirstCrash(before, start)
      invariant forall q :: 0 <= q < p ==> episodes[q] == Processed(before[q], q + 1, start, pages(q))
      invariant forall q :: p <= q < episodes.Length ==> episodes[q] == before[q]
    {
      current := current + 1;
      var e, crashed := ProcessEpisode(episodes[p], current, start, pages(p), net(p));
      Store(episodes, p, e);
      if crashed {
        raised := true;
        return;
      }
      p := p + 1;
    }
  }

  /** `episodes[p] = e`, leaving the other records as they are. */
  method Store(episodes: array<Entry>, p: nat, e: Entry)
    requires p < episodes.Length
    modifies episodes
    ensures episodes[p] == e
    ensures forall q :: 0 <= q < episodes.Length && q != p ==> episodes[q] == old(episodes[q])
  {
    episodes[p] := e;
  }

  /** One pass of that loop: the record at position `n` as the loop leaves it,
      and whether the pass raised. */
  method ProcessEpisode(e: Entry, n: nat, start: int, found: seq<String>, net: nat -> Script)
    returns (r: Entry, raised: bool)
    ensures r == Processed(e, n, start, found)
    ensures raised <==> Crashes(e, n, start)
  {
    r, raised := e, false;
    if n < start {
      return;
    }
    r := r.(title := "episode " + NatToString(n), slag := Some("episode-" + NatToString(n)));
    if r.thumbnail.None? {
      // `None.split('.')`: AttributeError
      raised := true;
      return;
    }
    var thumbnailFile := ThumbnailLocal(r.thumbnail.value);
    r := r.(thumbnail := Some("thumbnail.jpg"));
    if r.url.None? || r.url.value == [] || r.isLocked {
      return;
    }
    var names := NameImages(n, found, net);
    r := r.(url := None, images := Some(names));
  }

  /** The inner loop: each image is downloaded under its disk name, and its
      entry in the episode's `images` list is replaced by its manifest name. */
  method NameImages(n: nat, found: seq<String>, net: nat -> Script) returns (names: seq<String>)
    ensures names == ManifestNames(n, found)
  {
    names := found;
    for i := 0 to |found|
      invariant |names| == |found|
      invariant forall k :: 0 <= k < i ==> names[k] == ManifestName(n, k, ImageExtension(found[k]))
      invariant forall k :: i <= k < |found| ==> names[k] == found[k]
    {
      var name := SaveImage(n, i, found[i], net(i));
      names := names[i := name];
    }
    ManifestNamesAre(n, found, names);
  }

  /** Names given one by one make up the episode's manifest list. */
  lemma ManifestNamesAre(n: nat, found: seq<String>, names: seq<String>)
    requires |names| == |found|
    requires forall k :: 0 <= k < |found| ==> names[k] == ManifestName(n, k, ImageExtension(found[k]))
    ensures names == ManifestNames(n, found)
  {
  }

  /** One image of episode `n`: its extension, its download under the disk
      name, and the manifest name that replaces its URL. */
  method SaveImage(n: nat, i: nat, image: String, script: Script) returns (name: String)
    ensures name == ManifestName(n, i, ImageExtension(image))
  {
    var ext := ImageExtension(image);
    var file := DiskName(n, i, ext);
    var outcome, requests, sleeps := DownloadImage(script, 3);
    DownloadImageNeverRaises(script);
    name := ManifestName(n, i, ext);
  }

  /** The whole pass: reverse the list, then process it until a pass raises. */
  method ScrapeEpisodes(episodes: array<Entry>, start: int, pages: nat -> seq<String>, net: nat -> nat -> Script)
    returns (raised: bool)
    modifies episodes
    ensures var reversed := Reverse(old(episodes[..]));
      raised <==> FirstCrash(reversed, start) < episodes.Length
    ensures var reversed := Reverse(old(episodes[..]));
      forall p :: 0 <= p < episodes.Length ==>
        episodes[p] == if p <= FirstCrash(reversed, start) then Processed(reversed[p], p + 1, start, pages(p)) else reversed[p]
  {
    ReverseEpisodes(episodes);
    raised := ProcessEpisodes(episodes, start, pages, net);
  }

  // ---------------------------------------------------------------------
  // The comic record

  predicate IsTitleChar(c: char) { IsAsciiLetter(c) || IsPySpace(c) }

  /** `re.sub(r'[^a-zA-Z\s]', '', title)`. */
  function NormalizedTitle(title: String): String {
    Filter(title, IsTitleChar)
  }

  /** The normalised title keeps exactly the ASCII letters and whitespace of
      the title, in order, and normalising again changes nothing. */
  lemma NormalizedTitleSpec(title: String)
    ensures forall i :: 0 <= i < |NormalizedTitle(title)| ==> IsTitleChar(NormalizedTitle(title)[i])
    ensures forall c :: c in NormalizedTitle(title) <==> c in title && IsTitleChar(c)
    ensures NormalizedTitle(NormalizedTitle(title)) == NormalizedTitle(title)
    ensures (forall i :: 0 <= i < |title| ==> IsTitleChar(title[i])) ==> NormalizedTitle(title) == title
  {
    FilterMembers(title, IsTitleChar);
    FilterKeepsAll(NormalizedTitle(title), IsTitleChar);
    if forall i :: 0 <= i < |title| ==> IsTitleChar(title[i]) {
      FilterKeepsAll(title, IsTitleChar);
    }
  }

  predicate IsTag(item: String) { StartsWith(item, "#") }

  /** The loop over `genres_raw`: items starting with "#" are tags, the others
      genres, each list in input order. */
  method SplitKeywords(items: seq<String>) returns (genres: seq<String>, tags: seq<String>)
    ensures genres == Reject(items, IsTag)
    ensures tags == Filter(items, IsTag)
  {
    genres, tags := [], [];
    for i := 0 to |items|
      invariant genres == Reject(items[..i], IsTag)
      invariant tags == Filter(items[..i], IsTag)
    {
      assert items[..i + 1] == items[..i] + [items[i]];
      SplitSnoc(items[..i], items[i], IsTag);
      if IsTag(items[i]) {
        tags := tags + [items[i]];
      } else {
        genres := genres + [items[i]];
      }
    }
    TakeAll(items);
  }

  /** Tags and genres partition the keywords: together they hold each item as
      often as the input does, every tag starts with "#" and no genre does. */
  lemma KeywordsPartition(items: seq<String>)
    ensures multiset(Reject(items, IsTag)) + multiset(Filter(items, IsTag)) == multiset(items)
    ensures forall i :: 0 <= i < |Filter(items, IsTag)| ==> StartsWith(Filter(items, IsTag)[i], "#")
    ensures forall i :: 0 <= i < |Reject(items, IsTag)| ==> !StartsWith(Reject(items, IsTag)[i], "#")
  {
    FilterRejectPartition(items, IsTag);
    forall i | 0 <= i < |Reject(items, IsTag)| ensures !StartsWith(Reject(items, IsTag)[i], "#") {
      RejectNone(items, IsTag, i);
    }
  }

  const PreviewExtensions: seq<String> := ["webp", "jpg", "jpeg", "png", "gif"]

  /** The first of `exts` whose preview file is present. */
  function FirstPresent(exts: seq<String>, present: set<String>): Option<String> {
    if exts == [] then None
    else if "preview-thumbnail." + exts[0] in present then Some(exts[0])
    else FirstPresent(exts[1..], present)
  }

  /** `FirstPresent` finds the earliest present file, and finds none exactly
      when none is present. */
  lemma {:induction false} FirstPresentAt(exts: seq<String>, present: set<String>) returns (k: int)
    ensures -1 <= k < |exts|
    ensures k == -1 <==> FirstPresent(exts, present).None?
    ensures k == -1 ==> forall j :: 0 <= j < |exts| ==> "preview-thumbnail." + exts[j] !in present
    ensures k >= 0 ==> (
      && FirstPresent(exts, present) == Some(exts[k])
      && "preview-thumbnail." + exts[k] in present
      && forall j :: 0 <= j < k ==> "preview-thumbnail." + exts[j] !in present)
  {
    if exts == [] {
      k := -1;
    } else if "preview-thumbnail." + exts[0] in present {
      k := 0;
    } else {
      var k' := FirstPresentAt(exts[1..], present);
      k := if k' == -1 then -1 else k' + 1;
      forall j | 0 < j < |exts| && (k == -1 || j < k) ensures "preview-thumbnail." + exts[j] !in present {
        assert exts[j] == exts[1..][j - 1];
      }
    }
  }

  /** The loop over the preview extensions: `present` holds the names of the
      files in the comic folder. */
  method PreviewThumbnail(present: set<String>) returns (path: String)
    ensures path == (if FirstPresent(PreviewExtensions, present).Some?
      then "preview-thumbnail." + FirstPresent(PreviewExtensions, present).value else "")
  {
    path := "";
    var i := 0;
    while i < |PreviewExtensions|
      invariant 0 <= i <= |PreviewExtensions|
      invariant path == ""
      invariant FirstPresent(PreviewExtensions, present) == FirstPresent(PreviewExtensions[i..], present)
    {
      var ext := PreviewExtensions[i];
      if "preview-thumbnail." + ext in present {
        path := "preview-thumbnail." + ext;
        break;
      }
      assert PreviewExtensions[i..][1..] == PreviewExtensions[i + 1..];
      i := i + 1;
    }
  }

  /** `f"thumbnail.{ext}"` for the comic thumbnail, with the query cut from the
      extension but no "com" rule. */
  function ThumbnailLocal(url: String): String {
    "thumbnail." + CutQuery(AfterLast(url, '.'))
  }

  /** A thumbnail URL `stem.ext?query` is recorded as `thumbnail.ext`. */
  lemma ThumbnailLocalOf(stem: String, ext: String, query: String)
    requires '.' !in ext && '?' !in ext && '.' !in query
    ensures ThumbnailLocal(stem + "." + ext + "?" + query) == "thumbnail." + ext
  {
    AfterLastDot(stem, ext, query);
    BeforeFirstAppend(ext, '?', query);
  }

  /** The entry appended to `comics`. */
  datatype Comic = Comic(
    title: String,
    originalTitle: String,
    description: String,
    thumbnail: String,
    previewThumbnail: String,
    thumbnailBackground: String,
    genres: seq<String>,
    tags: seq<String>,
    episodes: seq<Entry>)

  /** The record built once the episodes are done. */
  method ComicRecord(title: String, description: String, thumbnail: String, present: set<String>,
                     keywords: seq<String>, episodes: seq<Entry>) returns (comic: Comic)
    ensures comic.title == NormalizedTitle(title) && comic.originalTitle == title
    ensures comic.description == description && comic.episodes == episodes
    ensures comic.thumbnail == ThumbnailLocal(thumbnail) && comic.thumbnailBackground == ""
    ensures comic.previewThumbnail == (if FirstPresent(PreviewExtensions, present).Some?
      then "preview-thumbnail." + FirstPresent(PreviewExtensions, present).value else "")
    ensures comic.genres == Reject(keywords, IsTag) && comic.tags == Filter(keywords, IsTag)
  {
    var genres, tags := SplitKeywords(keywords);
    var preview := PreviewThumbnail(present);
    comic := Comic(NormalizedTitle(title), title, description, ThumbnailLocal(thumbnail), preview, "",
                   genres, tags, episodes);
  }
}
