/** The honeytoon scraper: the display and original title of a comic, and the
    episode loop that skips prologues, numbers the other episodes from 1 and
    names their images. */
module Honeytoon {
  import opened Seqs
  import opened Text
  import opened Naming

  // ---------------------------------------------------------------------
  // Titles

  /** Python's `word.capitalize()`: the first character upper-cased, the rest
      lower-cased. */
  function Capitalize(w: String): (r: String)
    ensures |r| == |w|
    ensures w != [] ==> !IsLowerAscii(r[0])
    ensures forall k :: 0 < k < |r| ==> !IsUpperAscii(r[k])
  {
    if w == [] then [] else [UpperChar(w[0])] + Lower(w[1..])
  }

  /** Case mapping changes letters only: whitespace and other characters stay. */
  lemma CaseKeepsOthers(c: char)
    ensures !IsAsciiLetter(c) ==> UpperChar(c) == c && LowerChar(c) == c
    ensures IsPySpace(UpperChar(c)) <==> IsPySpace(c)
    ensures IsPySpace(LowerChar(c)) <==> IsPySpace(c)
  {
  }

  /** Capitalizing a capitalized word changes nothing... */
  lemma CapitalizeIdempotent(w: String)
    ensures Capitalize(Capitalize(w)) == Capitalize(w)
  {
    if w != [] {
      var r := Capitalize(w);
      assert r[0] == UpperChar(w[0]) && r[1..] == Lower(w[1..]);
      assert Lower(r[1..]) == r[1..];
    }
  }

  /** ...a word stays a word, and only letters change. */
  lemma CapitalizeWord(w: String)
    ensures IsWord(w) ==> IsWord(Capitalize(w))
    ensures forall c :: c in Capitalize(w) && !IsAsciiLetter(c) ==> c in w
  {
    if w != [] {
      var r := Capitalize(w);
      assert r[1..] == Lower(w[1..]);
      forall k | 0 <= k < |w| ensures IsPySpace(r[k]) <==> IsPySpace(w[k]) {
        CaseKeepsOthers(w[k]);
      }
      forall c | c in r && !IsAsciiLetter(c) ensures c in w {
        var k :| 0 <= k < |r| && r[k] == c;
        CaseKeepsOthers(w[k]);
      }
    }
  }

  /** Every word of a list capitalized (the generator in `' '.join(...)`). */
  function CapitalizeAll(words: seq<String>): (r: seq<String>)
    ensures |r| == |words|
    ensures forall i :: 0 <= i < |words| ==> r[i] == Capitalize(words[i])
  {
    seq(|words|, i requires 0 <= i < |words| => Capitalize(words[i]))
  }

  /** The display title: apostrophes removed, the whitespace-separated words
      each capitalized and joined by single spaces. */
  function DisplayTitle(original: String): String {
    Join(CapitalizeAll(SplitWords(ReplaceAll(original, "'", ""))), " ")
  }

  /** The display title holds no apostrophe; its words are those of the title
      without apostrophes, each capitalized; they are separated by single
      spaces, so splitting and re-joining gives the title back. */
  lemma DisplayTitleSpec(original: String)
    ensures '\'' !in DisplayTitle(original)
    ensures SplitWords(DisplayTitle(original)) == CapitalizeAll(SplitWords(ReplaceAll(original, "'", "")))
    ensures Join(SplitWords(DisplayTitle(original)), " ") == DisplayTitle(original)
  {
    var plain := ReplaceAll(original, "'", "");
    ReplaceCharGone(original, '\'');
    var words := CapitalizeAll(SplitWords(plain));
    SplitWordsAvoid(plain, '\'');
    forall i | 0 <= i < |words| ensures IsWord(words[i]) && '\'' !in words[i] {
      CapitalizeWord(SplitWords(plain)[i]);
    }
    JoinAvoids(words, " ", '\'');
    SplitWordsJoin(words);
  }

  /** Formatting a display title again changes nothing. */
  lemma DisplayTitleIdempotent(original: String)
    ensures DisplayTitle(DisplayTitle(original)) == DisplayTitle(original)
  {
    var d := DisplayTitle(original);
    var words := CapitalizeAll(SplitWords(ReplaceAll(original, "'", "")));
    DisplayTitleSpec(original);
    ContainsChar(d, '\'');
    assert ReplaceAll(d, "'", "") == d;
    forall i | 0 <= i < |words| ensures Capitalize(words[i]) == words[i] {
      CapitalizeIdempotent(SplitWords(ReplaceAll(original, "'", ""))[i]);
    }
    assert CapitalizeAll(words) == words;
  }

  /** A character in neither the parts nor the separator is not in the join. */
  lemma {:induction false} JoinAvoids(parts: seq<String>, sep: String, c: char)
    requires c !in sep
    requires forall i :: 0 <= i < |parts| ==> c !in parts[i]
    ensures c !in Join(parts, sep)
  {
    if |parts| > 1 {
      JoinAvoids(parts[1..], sep, c);
    }
  }

  /** `originalTitle`: the stripped title upper-cased. */
  function OriginalTitle(text: String): (r: String)
    ensures |r| == |Strip(text)|
    ensures forall k :: 0 <= k < |r| ==> !IsLowerAscii(r[k])
  {
    Upper(Strip(text))
  }

  /** Upper-casing the original title again changes nothing, and it agrees with
      the stripped title except in the case of its letters. */
  lemma OriginalTitleSpec(text: String)
    ensures Upper(OriginalTitle(text)) == OriginalTitle(text)
    ensures forall k :: 0 <= k < |Strip(text)| && !IsAsciiLetter(Strip(text)[k]) ==>
      OriginalTitle(text)[k] == Strip(text)[k]
  {
  }

  // ---------------------------------------------------------------------
  // Episodes

  /** One entry of `links_episode.txt` as its page shows it: the stripped text
      of the header and the URLs of the images inside `.single-inner`. */
  datatype Page = Page(header: String, images: seq<String>)

  /** The header names a prologue ("prologue" in the lower-cased header). */
  predicate IsPrologue(p: Page) {
    Contains(Lower(p.header), "prologue")
  }

  datatype EpisodeRecord = EpisodeRecord(
    parentTitle: String, title: String, slag: String, date: String,
    thumbnail: String, images: seq<String>)

  /** `f"episode_{k}_{i + 1}.jpg"`. */
  function ImageName(k: nat, i: nat): String {
    "episode_" + NameTail(k, i, "jpg")
  }

  /** No two images, of the same episode or of two episodes, share a name. */
  lemma ImageNameInjective(k: nat, i: nat, m: nat, j: nat)
    requires ImageName(k, i) == ImageName(m, j)
    ensures k == m && i == j
  {
    CancelPrefix("episode_", NameTail(k, i, "jpg"), NameTail(m, j, "jpg"));
    NameTailInjective(k, i, "jpg", m, j, "jpg");
  }

  /** The names of episode `k`'s images, one per image, in page order. */
  function ImageNames(k: nat, count: nat): (names: seq<String>)
    ensures |names| == count
  {
    seq(count, i requires 0 <= i < count => ImageName(k, i))
  }

  /** The record of the `k`-th emitted episode. */
  function Record(parent: String, k: nat, page: Page): EpisodeRecord {
    EpisodeRecord(parent, "episode " + NatToString(k), "episode-" + NatToString(k), "",
                  "thumbnail.jpg", ImageNames(k, |page.images|))
  }

  /** The episodes of a comic: the pages that are not prologues, in order,
      numbered from 1. */
  function Emitted(parent: String, pages: seq<Page>): (r: seq<EpisodeRecord>)
    ensures |r| == |Reject(pages, IsPrologue)|
  {
    var kept := Reject(pages, IsPrologue);
    seq(|kept|, i requires 0 <= i < |kept| => Record(parent, i + 1, kept[i]))
  }

  /** A prologue adds no episode and leaves the numbering where it was; any
      other page adds one episode numbered one past the episodes so far. */
  lemma EmittedStep(parent: String, pages: seq<Page>, p: Page)
    ensures IsPrologue(p) ==> Emitted(parent, pages + [p]) == Emitted(parent, pages)
    ensures !IsPrologue(p) ==>
      Emitted(parent, pages + [p]) == Emitted(parent, pages) + [Record(parent, |Emitted(parent, pages)| + 1, p)]
  {
    SplitSnoc(pages, p, IsPrologue);
  }

  /** Every page is either a prologue or an episode: the episodes and the
      prologues together are as many as the pages. */
  lemma EmittedCount(parent: String, pages: seq<Page>)
    ensures |Emitted(parent, pages)| + |Filter(pages, IsPrologue)| == |pages|
  {
    FilterRejectPartition(pages, IsPrologue);
    assert |multiset(pages)| == |pages|;
  }

  /** Episode titles, slugs and image names are never repeated within a comic. */
  lemma EmittedDistinct(parent: String, pages: seq<Page>, a: nat, b: nat)
    requires a < b < |Emitted(parent, pages)|
    ensures Emitted(parent, pages)[a].title != Emitted(parent, pages)[b].title
    ensures Emitted(parent, pages)[a].slag != Emitted(parent, pages)[b].slag
    ensures forall x :: x in Emitted(parent, pages)[a].images ==> x !in Emitted(parent, pages)[b].images
  {
    var kept := Reject(pages, IsPrologue);
    var e := Emitted(parent, pages);
    assert e[a] == Record(parent, a + 1, kept[a]) && e[b] == Record(parent, b + 1, kept[b]);
    NumbersDiffer("episode ", a + 1, b + 1);
    NumbersDiffer("episode-", a + 1, b + 1);
    ImageNamesDisjoint(a + 1, |kept[a].images|, b + 1, |kept[b].images|);
  }

  /** Two different numbers behind the same prefix give different texts. */
  lemma NumbersDiffer(prefix: String, k: nat, m: nat)
    requires k != m
    ensures prefix + NatToString(k) != prefix + NatToString(m)
  {
    if prefix + NatToString(k) == prefix + NatToString(m) {
      CancelPrefix(prefix, NatToString(k), NatToString(m));
      NatToStringInjective(k, m);
    }
  }

  /** Two episodes share no image name. */
  lemma ImageNamesDisjoint(k: nat, p: nat, m: nat, q: nat)
    requires k != m
    ensures forall x :: x in ImageNames(k, p) ==> x !in ImageNames(m, q)
  {
    forall x | x in ImageNames(k, p) ensures x !in ImageNames(m, q) {
      if x in ImageNames(m, q) {
        var i :| 0 <= i < p && ImageNames(k, p)[i] == x;
        var j :| 0 <= j < q && ImageNames(m, q)[j] == x;
        ImageNameInjective(k, i, m, j);
      }
    }
  }

  /** The episode loop of one comic. Each page that is not a prologue gets the
      folder `str(counter)` and a record; the counter then moves on. A
      prologue is skipped without moving it. Every image name is listed; the
      download or decoding of the image is not part of the result. */
  method ScrapeEpisodes(parent: String, pages: seq<Page>) returns (episodes: seq<EpisodeRecord>, folders: seq<String>)
    ensures episodes == Emitted(parent, pages)
    ensures |folders| == |episodes|
    ensures forall i :: 0 <= i < |folders| ==> folders[i] == NatToString(i + 1)
  {
    episodes, folders := [], [];
    var counter := 1;
    for j := 0 to |pages|
      invariant episodes == Emitted(parent, pages[..j])
      invariant counter == |episodes| + 1 && |folders| == |episodes|
      invariant forall i :: 0 <= i < |folders| ==> folders[i] == NatToString(i + 1)
    {
      assert pages[..j + 1] == pages[..j] + [pages[j]];
      EmittedStep(parent, pages[..j], pages[j]);
      if IsPrologue(pages[j]) {
        continue;
      }
      var folder := NatToString(counter);
      var record := MakeRecord(parent, counter, pages[j]);
      episodes := episodes + [record];
      folders := folders + [folder];
      counter := counter + 1;
    }
    TakeAll(pages);
  }

  /** The record of one episode page, `counter` being its number. */
  method MakeRecord(parent: String, counter: nat, page: Page) returns (record: EpisodeRecord)
    ensures record == Record(parent, counter, page)
  {
    var names := NameImages(counter, page.images);
    record := EpisodeRecord(parent, "episode " + NatToString(counter), "episode-" + NatToString(counter),
                            "", "thumbnail.jpg", names);
  }

  /** The image loop of one episode: a name per image, whatever became of
      saving it. */
  method NameImages(k: nat, images: seq<String>) returns (names: seq<String>)
    ensures names == ImageNames(k, |images|)
  {
    names := [];
    for i := 0 to |images|
      invariant |names| == i
      invariant forall m :: 0 <= m < i ==> names[m] == ImageName(k, m)
    {
      var name := ImageName(k, i);
      names := names + [name];
    }
  }

  // ---------------------------------------------------------------------
  // The comic record

  /** The texts of one `.comic-book` card. */
  datatype Card = Card(title: String, description: String, genres: seq<String>, tags: seq<String>)

  datatype Comic = Comic(
    title: String, originalTitle: String, description: String, thumbnail: String,
    thumbnailBackground: String, previewThumbnail: String, genres: seq<String>,
    tags: seq<String>, episodes: seq<EpisodeRecord>)

  /** One card of a listing page: its directory (the display title) and its
      record, whose episodes come from the pages of its episode links. */
  method ScrapeComic(card: Card, pages: seq<Page>) returns (dir: String, comic: Comic)
    ensures dir == comic.title == DisplayTitle(Strip(card.title))
    ensures comic.originalTitle == OriginalTitle(card.title)
    ensures comic.episodes == Emitted(dir, pages)
    ensures comic.thumbnail == "thumbnail.jpg" && comic.thumbnailBackground == ""
    ensures comic.previewThumbnail == "preview-thumbnail.jpg"
    ensures |comic.genres| == |card.genres| && forall i :: 0 <= i < |card.genres| ==> comic.genres[i] == Strip(card.genres[i])
    ensures |comic.tags| == |card.tags| && forall i :: 0 <= i < |card.tags| ==> comic.tags[i] == Strip(card.tags[i])
  {
    var original := Strip(card.title);
    var display := DisplayTitle(original);
    dir := display;
    var genres := seq(|card.genres|, i requires 0 <= i < |card.genres| => Strip(card.genres[i]));
    var tags := seq(|card.tags|, i requires 0 <= i < |card.tags| => Strip(card.tags[i]));
    var episodes, folders := ScrapeEpisodes(display, pages);
    comic := Comic(display, Upper(original), Strip(card.description), "thumbnail.jpg", "",
                   "preview-thumbnail.jpg", genres, tags, episodes);
  }

  /** Every episode record names its comic's display title as its parent. */
  lemma EpisodesNameParent(parent: String, pages: seq<Page>, i: nat)
    requires i < |Emitted(parent, pages)|
    ensures Emitted(parent, pages)[i].parentTitle == parent
    ensures Emitted(parent, pages)[i].date == "" && Emitted(parent, pages)[i].thumbnail == "thumbnail.jpg"
  {
  }
}
