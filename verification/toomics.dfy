/** The deterministic rules of the toomics scraper: the download retry loop
    that gives up after its first failure, the queue that names and collects an
    episode's images, the comic title cleaner, the genre split and the episode
    tag used in image names. */
module Toomics {
  import opened Wrappers
  import opened Seqs
  import opened Text
  import opened Fetch

  // ---------------------------------------------------------------------
  // download_image

  /** `download_image` is `Fetch.DownloadImage`; with its default of five
      attempts the call never raises. */
  lemma DownloadImageNeverRaises(script: Script)
    ensures GiveUpEarly(script, 5).outcome != Raised
    ensures GiveUpEarly(script, 5).requests == 1
  {
    GiveUpEarlyRaises(script, 5);
    GiveUpEarlyVsRetry(script, 5);
  }

  // ---------------------------------------------------------------------
  // download_images_with_queue

  /** How many times the queue tries one image. */
  const MaxQueueTries: nat := 3

  /** The extension of an image URL: the text after its last ".", or "jpg"
      when that text contains "com". The query string is not removed. */
  function QueueExtension(image: String): (e: String)
    ensures '.' !in e
  {
    var ext := AfterLast(image, '.');
    if Contains(ext, "com") then "jpg" else ext
  }

  /** An image URL `stem.ext` keeps `ext`, query string included, unless it
      contains "com". */
  lemma QueueExtensionOf(stem: String, ext: String)
    requires '.' !in ext
    ensures QueueExtension(stem + "." + ext) == if Contains(ext, "com") then "jpg" else ext
  {
    AfterLastAppend(stem, '.', ext);
  }

  /** `f"episode_{tag}_{index + 1}.{ext}"`, the name recorded for image
      `index` whose extension is `ext`. */
  function QueueName(tag: String, index: nat, ext: String): String {
    "episode_" + tag + "_" + NatToString(index + 1) + "." + ext
  }

  /** The name determines the image's index and extension. */
  lemma QueueNameInjective(tag: String, i: nat, j: nat, e: String, f: String)
    requires QueueName(tag, i, e) == QueueName(tag, j, f)
    ensures i == j && e == f
  {
    var head := "episode_" + tag + "_";
    QueueNameSplit(tag, i, e);
    QueueNameSplit(tag, j, f);
    CancelPrefix(head, NatToString(i + 1) + ("." + e), NatToString(j + 1) + ("." + f));
    DigitPrefixUnique(NatToString(i + 1), "." + e, NatToString(j + 1), "." + f);
    NatToStringInjective(i + 1, j + 1);
    CancelPrefix(".", e, f);
  }

  lemma QueueNameSplit(tag: String, i: nat, e: String)
    ensures QueueName(tag, i, e) == ("episode_" + tag + "_") + (NatToString(i + 1) + ("." + e))
  {
  }

  /** What the queue leaves in slot `index`: the image's name when the page gave
      the image a URL, nothing when it did not (a missing `src` makes every
      try fail). */
  function QueueSlot(images: seq<Option<String>>, tag: String, index: nat): Option<String>
    requires index < |images|
  {
    if images[index].Some? then Some(QueueName(tag, index, QueueExtension(images[index].value))) else None
  }

  function QueueSlots(images: seq<Option<String>>, tag: String): (slots: seq<Option<String>>)
    ensures |slots| == |images|
  {
    seq(|images|, i requires 0 <= i < |images| => QueueSlot(images, tag, i))
  }

  /** The pauses before the second and later tries of an image: `2 * try`. */
  function Backoffs(tries: nat): (b: seq<nat>)
    ensures |b| == tries
  {
    seq(tries, i requires 0 <= i < tries => 2 * (i + 1))
  }

  /** The tries recorded for the first `n` images: the maximum for every image
      without a URL. */
  function FailedUpTo(images: seq<Option<String>>, n: nat): map<nat, nat>
    requires n <= |images|
  {
    map k: nat | k < n && images[k].None? :: MaxQueueTries
  }

  /** Each image adds its own entry, if any, to the recorded tries. */
  lemma FailedUpToStep(images: seq<Option<String>>, i: nat)
    requires i < |images|
    ensures FailedUpTo(images, i + 1) ==
      if images[i].Some? then FailedUpTo(images, i) else FailedUpTo(images, i)[i := MaxQueueTries]
  {
  }

  /** Slots filled one by one make up the queue's result list. */
  lemma QueueSlotsAre(images: seq<Option<String>>, tag: String, slots: seq<Option<String>>)
    requires |slots| == |images|
    requires forall k :: 0 <= k < |images| ==> slots[k] == QueueSlot(images, tag, k)
    ensures slots == QueueSlots(images, tag)
  {
  }

  /** The state the workers of `download_images_with_queue` share. */
  class Queue {
    const images: seq<Option<String>>
    const tag: String
    const results: array<Option<String>>
    var failedAttempts: map<nat, nat>
    var completed: nat

    ghost predicate Valid()
      reads this
    {
      results.Length == |images|
    }

    constructor (images: seq<Option<String>>, tag: String)
      ensures Valid() && this.images == images && this.tag == tag
      ensures fresh(results) && forall k :: 0 <= k < results.Length ==> results[k].None?
      ensures failedAttempts == map[] && completed == 0
    {
      this.images := images;
      this.tag := tag;
      results := new Option<String>[|images|](_ => None);
      failedAttempts := map[];
      completed := 0;
    }

    /** `results[index] = name`. */
    method SetResult(index: nat, name: String)
      requires index < results.Length
      modifies results
      ensures results[index] == Some(name)
      ensures forall k :: 0 <= k < results.Length && k != index ==> results[k] == old(results[k])
    {
      results[index] := Some(name);
    }

    /** `process_image`: up to three tries; a try that downloads records the
        name in `results[index]`, a failed one records the try count and sleeps
        before the next try. Each image is counted as completed exactly once.
        Try `t` of the download follows `tries(t)`. */
    method ProcessImage(index: nat, tries: nat -> Script) returns (sleeps: seq<nat>)
      requires Valid() && index < |images|
      modifies this, results
      ensures Valid()
      ensures images[index].Some? ==> results[index] == QueueSlot(images, tag, index)
      ensures images[index].None? ==> results[index] == old(results[index])
      ensures forall k :: 0 <= k < results.Length && k != index ==> results[k] == old(results[k])
      ensures completed == old(completed) + 1
      ensures failedAttempts == if images[index].Some? then old(failedAttempts)
        else old(failedAttempts)[index := MaxQueueTries]
      ensures sleeps == if images[index].Some? then [] else Backoffs(MaxQueueTries - 1)
    {
      var attempts := 0;
      sleeps := [];
      while attempts < MaxQueueTries
        invariant attempts <= MaxQueueTries
        invariant images[index].Some? ==> attempts == 0
        invariant completed == old(completed)
        invariant failedAttempts == if attempts == 0 then old(failedAttempts) else old(failedAttempts)[index := attempts]
        invariant sleeps == Backoffs(if attempts < MaxQueueTries then attempts else MaxQueueTries - 1)
        invariant forall k :: 0 <= k < results.Length ==> results[k] == old(results[k])
        decreases MaxQueueTries - attempts
      {
        var failed: bool;
        if images[index].None? {
          failed := true;
        } else {
          var outcome, _, _ := DownloadImage(tries(attempts + 1), 5);
          DownloadImageNeverRaises(tries(attempts + 1));
          failed := outcome == Raised;
          if !failed {
            SetResult(index, QueueName(tag, index, QueueExtension(images[index].value)));
            completed := completed + 1;
            return;
          }
        }
        attempts := attempts + 1;
        failedAttempts := failedAttempts[index := attempts];
        if attempts < MaxQueueTries {
          assert Backoffs(attempts - 1) + [attempts * 2] == Backoffs(attempts);
          sleeps := sleeps + [attempts * 2];
        }
      }
      completed := completed + 1;
    }
  }

  /** The entries of a result list that are set (`[r for r in results if r]`). */
  function Listed(results: seq<Option<String>>): seq<String> {
    if results == [] then []
    else (if results[0].Some? && results[0].value != [] then [results[0].value] else []) + Listed(results[1..])
  }

  /** `download_images_with_queue`: one worker per image, each writing only its
      own slot; the set slots are then listed in index order. Image `i`'s
      download tries follow `net(i)`. */
  method DownloadImagesWithQueue(images: seq<Option<String>>, tag: String, net: nat -> nat -> Script)
    returns (names: seq<String>, completed: nat, failedAttempts: map<nat, nat>)
    ensures names == Listed(QueueSlots(images, tag))
    ensures completed == |images|
    ensures failedAttempts == FailedUpTo(images, |images|)
  {
    var queue := new Queue(images, tag);
    for i := 0 to |images|
      invariant queue.Valid() && queue.images == images && queue.tag == tag
      invariant forall k :: 0 <= k < i ==> queue.results[k] == QueueSlot(images, tag, k)
      invariant forall k :: i <= k < |images| ==> queue.results[k].None?
      invariant queue.completed == i
      invariant queue.failedAttempts == FailedUpTo(images, i)
    {
      var _ := queue.ProcessImage(i, net(i));
      FailedUpToStep(images, i);
    }
    QueueSlotsAre(images, tag, queue.results[..]);
    names := Listed(queue.results[..]);
    completed := queue.completed;
    failedAttempts := queue.failedAttempts;
  }

  /** Each listed name comes from slot `p`. */
  lemma {:induction false} ListedAt(results: seq<Option<String>>, k: nat) returns (p: nat)
    requires k < |Listed(results)|
    ensures p < |results| && results[p] == Some(Listed(results)[k])
  {
    var head := if results[0].Some? && results[0].value != [] then [results[0].value] else [];
    if k < |head| {
      p := 0;
    } else {
      var p' := ListedAt(results[1..], k - |head|);
      p := p' + 1;
    }
  }

  /** Slots holding different names everywhere give a list without repeats. */
  lemma {:induction false} ListedDistinct(results: seq<Option<String>>)
    requires forall i, j :: 0 <= i < j < |results| && results[i].Some? && results[j].Some? ==> results[i] != results[j]
    ensures Distinct(Listed(results))
  {
    if results != [] {
      var rest := Listed(results[1..]);
      ListedDistinct(results[1..]);
      if results[0].Some? && results[0].value != [] {
        forall k | 0 <= k < |rest| ensures rest[k] != results[0].value {
          var p := ListedAt(results[1..], k);
          assert results[1..][p] == results[p + 1];
        }
      }
    }
  }

  /** When every set slot holds a name, the list is the slots' names in order. */
  lemma {:induction false} ListedAll(results: seq<Option<String>>)
    requires forall i :: 0 <= i < |results| ==> results[i].Some? && results[i].value != []
    ensures |Listed(results)| == |results|
    ensures forall i :: 0 <= i < |results| ==> Listed(results)[i] == results[i].value
  {
    if results != [] {
      ListedAll(results[1..]);
      assert forall i :: 1 <= i < |results| ==> results[i] == results[1..][i - 1];
    }
  }

  /** The queue lists no name twice, and when every image has a URL it lists one
      name per image, in image order, whatever the downloads did. */
  lemma QueueNamesSpec(images: seq<Option<String>>, tag: String)
    ensures Distinct(Listed(QueueSlots(images, tag)))
    ensures (forall i :: 0 <= i < |images| ==> images[i].Some?) ==> (
      && |Listed(QueueSlots(images, tag))| == |images|
      && forall i :: 0 <= i < |images| ==>
        Listed(QueueSlots(images, tag))[i] == QueueName(tag, i, QueueExtension(images[i].value)))
  {
    var slots := QueueSlots(images, tag);
    forall i, j | 0 <= i < j < |slots| && slots[i].Some? && slots[j].Some? ensures slots[i] != slots[j] {
      if slots[i] == slots[j] {
        QueueNameInjective(tag, i, j, QueueExtension(images[i].value), QueueExtension(images[j].value));
      }
    }
    ListedDistinct(slots);
    if forall i :: 0 <= i < |images| ==> images[i].Some? {
      ListedAll(slots);
    }
  }

  // ---------------------------------------------------------------------
  // parse_toomics: title, genres and episode tag

  /** The characters `re.sub(r'[,\'\-\"\.\!\?\:\;]', '', title)` removes. */
  predicate IsTitlePunctuation(c: char) {
    c == ',' || c == '\'' || c == '-' || c == '"' || c == '.' || c == '!' || c == '?' || c == ':' || c == ';'
  }

  predicate KeptInTitle(c: char) { !IsTitlePunctuation(c) }

  /** The cleaned title, used as the comic directory and manifest title. */
  function CleanTitle(title: String): String {
    Filter(title, KeptInTitle)
  }

  /** The cleaned title has none of the removed characters, keeps every other
      character of the title (and adds none), and cleaning it again changes
      nothing. */
  lemma CleanTitleSpec(title: String)
    ensures forall i :: 0 <= i < |CleanTitle(title)| ==> !IsTitlePunctuation(CleanTitle(title)[i])
    ensures forall c :: c in CleanTitle(title) <==> c in title && !IsTitlePunctuation(c)
    ensures CleanTitle(CleanTitle(title)) == CleanTitle(title)
  {
    FilterMembers(title, KeptInTitle);
    FilterKeepsAll(CleanTitle(title), KeptInTitle);
  }

  /** Cleaning works character by character: the kept characters stay in
      their order, and a removed character takes nothing else with it. */
  lemma CleanTitleLocal(a: String, c: char, b: String)
    ensures CleanTitle(a + [c] + b) == CleanTitle(a) + (if IsTitlePunctuation(c) then [] else [c]) + CleanTitle(b)
  {
    FilterAppend(a + [c], b, KeptInTitle);
    FilterAppend(a, [c], KeptInTitle);
  }

  /** A title without any of those characters is left as it is. */
  lemma CleanTitleUnchanged(title: String)
    requires forall i :: 0 <= i < |title| ==> !IsTitlePunctuation(title[i])
    ensures CleanTitle(title) == title
  {
    FilterKeepsAll(title, KeptInTitle);
  }

  /** `[genre.strip() for genre in genres[0].split('/')]`; indexing an empty
      list raises. */
  function Genres(scraped: seq<String>): Fallible<seq<String>> {
    if scraped == [] then Threw
    else
      var parts := SplitOn(scraped[0], '/');
      Returned(seq(|parts|, i requires 0 <= i < |parts| => Strip(parts[i])))
  }

  /** One genre per "/"-separated piece, each stripped and free of "/"; when
      the pieces carry no surrounding whitespace, joining the genres with "/"
      gives the scraped text back. */
  lemma GenresSpec(scraped: seq<String>)
    ensures Genres(scraped).Threw? <==> scraped == []
    ensures scraped != [] ==> (
      && |Genres(scraped).value| == |SplitOn(scraped[0], '/')|
      && forall i :: 0 <= i < |Genres(scraped).value| ==>
        Strip(Genres(scraped).value[i]) == Genres(scraped).value[i] && '/' !in Genres(scraped).value[i])
    ensures scraped != [] && (forall i :: 0 <= i < |SplitOn(scraped[0], '/')| ==>
        Strip(SplitOn(scraped[0], '/')[i]) == SplitOn(scraped[0], '/')[i]) ==>
      Join(Genres(scraped).value, "/") == scraped[0]
  {
    if scraped != [] {
      var parts := SplitOn(scraped[0], '/');
      var genres := Genres(scraped).value;
      forall i | 0 <= i < |genres| ensures Strip(genres[i]) == genres[i] && '/' !in genres[i] {
        TrimIdempotent(parts[i], IsPySpace);
        StripKeepsOut(parts[i], '/');
      }
      if forall i :: 0 <= i < |parts| ==> Strip(parts[i]) == parts[i] {
        assert genres == parts;
        JoinSplitOn(scraped[0], '/');
      }
    }
  }

  /** Stripping never brings in a character. */
  lemma StripKeepsOut(s: String, c: char)
    requires c !in s
    ensures c !in Strip(s)
  {
    var i, j := TrimPieces(s, IsPySpace);
  }

  /** `f"thumbnail.{url.split('.')[-1]}"`: the file name of a comic or episode
      thumbnail. */
  function ThumbnailName(url: String): (name: String)
    ensures StartsWith(name, "thumbnail.") && '.' !in name[|"thumbnail."|..]
  {
    "thumbnail." + AfterLast(url, '.')
  }

  /** A thumbnail URL `stem.ext` is saved as `thumbnail.ext`. */
  lemma ThumbnailNameOf(stem: String, ext: String)
    requires '.' !in ext
    ensures ThumbnailName(stem + "." + ext) == "thumbnail." + ext
  {
    AfterLastAppend(stem, '.', ext);
  }

  /** `episode['title'].replace('episode ', '')`: the episode folder name. */
  function EpisodeNumber(title: String): String {
    ReplaceAll(title, "episode ", [])
  }

  /** `re.sub(r'[^a-zA-Z0-9_]', '', episode_number)`: the tag in image names. */
  function EpisodeTag(title: String): (tag: String)
    ensures forall i :: 0 <= i < |tag| ==> IsAsciiAlnum(tag[i]) || tag[i] == '_'
  {
    Filter(EpisodeNumber(title), IsTagChar)
  }

  predicate IsTagChar(c: char) { IsAsciiAlnum(c) || c == '_' }

  /** The episode title the page script builds: `episode ${number}`, trimmed. */
  function EpisodeTitle(number: String): String {
    JsTrim("episode " + JsTrim(number))
  }

  /** For an episode numbered with digits, the folder name and the image tag
      are that number. */
  lemma EpisodeTagOfNumber(number: String)
    requires IsDigits(number)
    ensures EpisodeNumber(EpisodeTitle(number)) == number
    ensures EpisodeTag(EpisodeTitle(number)) == number
  {
    TrimNothing(number, IsJsSpace);
    var title := "episode " + number;
    TrimNothing(title, IsJsSpace);
    assert title[..|"episode "|] == "episode ";
    assert title[|"episode "|..] == number;
    DigitsAvoid(number, "episode ");
    FilterKeepsAll(number, IsTagChar);
  }

  /** Trimming a string that neither starts nor ends with a trimmed character
      changes nothing. */
  lemma TrimNothing(s: String, ws: char -> bool)
    requires s != [] && !ws(s[0]) && !ws(s[|s| - 1])
    ensures TrimBy(s, ws) == s
  {
  }
}
