# parser_comics — a verified model of the scrapers' deterministic core

The repository holds five webcomic scrapers: mangapark, toongod, toomics,
daycomics and honeytoon. It also holds two post-processing scripts:
`generate_json.py` builds a JSON manifest from a downloaded comic
directory, and `rename_dir_and_img.py` renumbers episode directories and
the image files inside them.

Most of that code drives a browser or an HTTP client. Inside it sits a
layer of small deterministic rules, and that layer is modelled here:

- how each scraper turns a URL and the episode and image ordinals into a
  file name and an extension;
- how directory names and display titles are sanitised;
- which URLs and episode links are selected, deduplicated, ordered and
  reversed;
- how the single-download retry loops behave over a given sequence of
  attempt outcomes;
- how the concurrent batch downloads assemble their result lists;
- how episodes are numbered, skipped, classified and written to the
  manifest;
- how `rename_dir_and_img.py` sorts, renumbers, rewrites file names and
  moves directories.

The modules follow the scripts:

| module | file | models |
|---|---|---|
| `Text` | text.dfy | Python and JavaScript string operations the scrapers call: `strip`, `trim`, `split`, `split()`, `replace`, `lower`, `upper`, `title`, `isdigit`, `str(n)`, `f"{n:03d}"`, `int(s)`, `re.sub` over a character class |
| `Seqs` | seqs.dfy | list comprehensions with a filter, first-seen deduplication, `reversed` |
| `StableSort` | stable_sort.dfy | `sorted` and `list.sort` with a key: a stable insertion sort |
| `Fetch` | fetch.dfy | the retry loops, over an abstract script of attempt outcomes |
| `Naming` | naming.dfy | the `episode_NNN_III.ext` names shared by mangapark and toongod |
| `Mangapark` | mangapark.dfy | mangapark_parser.py |
| `Toongod` | toongod.dfy | toongod_parser.py |
| `Toomics` | toomics.dfy | toomics_parser.py |
| `Daycomics` | daycomics.dfy | the live part of daycomics_scraper.py (from line 855 on) |
| `Honeytoon` | honeytoon.dfy | honeytoon_parser.py |
| `GenerateJson` | generate_json.dfy | generate_json.py |
| `RenameDirs` | rename_dirs.dfy | rename_dir_and_img.py, with the file system as a tree of maps |

Page contents are inputs to the model. This covers what Selenium,
Playwright, BeautifulSoup or a regular expression would find: texts,
attribute values, matched paths and directory listings, all given as
sequences in page order.

Network outcomes are inputs too. A download is a `Script`, a function
from the 1-based attempt number to `Fetched`, `Transient` or `Fatal`:
- `Transient` is an error the loop's `except` catches.
- `Fatal` is any other error; it propagates.

A worker pool with one task per image writes only its own slot of the
results, so it is modelled as a sequential loop over an array.
`Fallible` results model the exceptions the source lets escape:
- the ValueError of `int()` in generate_json.py;
- the IndexError of `genres[0]` in toomics_parser.py;
- an uncaught download error.

## Model

| member | source | states |
|---|---|---|
| Text.TrimByShape | mangapark_parser.py:57 | `strip` leaves a text that neither begins nor ends with whitespace, is empty exactly when the input is all whitespace, and is a contiguous slice of the input |
| Text.TrimKeepsContent | toongod_parser.py:153 | stripping drops only whitespace: the non-whitespace characters are those of the input, in order |
| Text.TrimIdempotent | toongod_parser.py:155 | stripping twice is stripping once |
| Text.CollapseRuns | mangapark_parser.py:57 | `re.sub(r"\s+", " ", ...)`: the result has no two class characters in a row, every class character left is a space, and a leading run becomes one space |
| Text.CollapseKeepsContent | toongod_parser.py:153 | collapsing runs keeps every character outside the class, in order |
| Text.Lower | mangapark_parser.py:68 | `str.lower` maps every character through the ASCII case mapping, same length |
| Text.Upper | honeytoon_parser.py:90 | `str.upper` maps every character through the ASCII case mapping, same length |
| Text.Title | mangapark_parser.py:66 | `str.title` has the input's length; a letter is upper-cased at the start or after a non-letter, and lower-cased after a letter |
| Text.TitleIdempotent | mangapark_parser.py:69 | title-casing a title-cased text changes nothing |
| Text.AfterFirst | mangapark_parser.py:64 | `split(pat, 1)[1]` is the suffix that follows the first occurrence of `pat` |
| Text.BeforeFirst | generate_json.py:37 | `split(c)[0]` is a prefix free of `c`, followed by `c` when shorter than the input |
| Text.AfterLast | mangapark_parser.py:62 | `rsplit(c, 1)[-1]` is a suffix free of `c`, preceded by `c` when shorter than the input |
| Text.LastIndexOf | toongod_parser.py:401 | the last `c` is at the index returned, with no `c` after it; -1 when there is none |
| Text.ReplaceAll | toongod_parser.py:337 | `str.replace` leaves a text without the pattern unchanged |
| Text.ReplaceCharGone | honeytoon_parser.py:72 | after `replace("'", "")` no apostrophe remains |
| Text.JoinSplitOn | toomics_parser.py:249 | joining the pieces of `split(sep)` with `sep` gives the text back |
| Text.SplitOnJoin | toomics_parser.py:249 | splitting a join of separator-free pieces gives the pieces back |
| Text.SplitWords | honeytoon_parser.py:74 | `split()` yields non-empty words free of whitespace |
| Text.SplitWordsAvoid | honeytoon_parser.py:72-74 | a character missing from the text is missing from every word of `split()` |
| Text.SplitWordsJoin | honeytoon_parser.py:74 | words joined by single spaces split back into the same words |
| Text.NatToStringOfDigits | generate_json.py:43 | a digit string without a leading zero is `str` of the number it denotes |
| Text.NatToStringInjective | honeytoon_parser.py:170 | `str` of distinct numbers differs |
| Text.DigitsValueZeros | rename_dir_and_img.py:10 | leading zeros do not change `int(s)` |
| Text.Pad3 | mangapark_parser.py:190 | `f"{n:03d}"` is all digits, at least three long, denotes `n`, and equals `str(n)` from 100 on |
| Text.Pad3Injective | toongod_parser.py:404 | distinct numbers get distinct padded forms |
| Text.ParsePyInt | generate_json.py:37 | `int(s)` succeeds exactly when the stripped text, without one sign, is all digits |
| Text.ParsePyIntDigits | generate_json.py:37 | a digit string parses to the number it denotes |
| Text.ParsePyIntLetter | generate_json.py:37 | text that begins with a letter raises ValueError |
| Seqs.FilterRejectPartition | daycomics_scraper.py:1577-1583 | a filter and its complement together hold every element as often as the input |
| Seqs.DedupFromMembers | mangapark_parser.py:106-110 | first-seen deduplication against a seen set keeps no element twice, and keeps exactly the elements not seen before |
| Seqs.DedupFromOrder | mangapark_parser.py:106-110 | deduplication keeps elements in the order of their first occurrence |
| Seqs.DedupSpec | mangapark_parser.py:103-111 | the deduplicated list has no repeats, loses no element, adds none, and follows first occurrence |
| Seqs.KeptAt | toongod_parser.py:407-408 | each kept element is a flagged element of the input |
| Seqs.KeptComplete | toongod_parser.py:407-408 | every flagged element is kept |
| Seqs.KeptDistinct | toongod_parser.py:407-408 | keeping part of a list without repeats leaves none, and keeps at most the input's length |
| Seqs.Reverse | toongod_parser.py:291 | `reversed` puts element `i` at position `n - 1 - i` |
| Seqs.ReverseInvolutive | daycomics_scraper.py:1226 | reversing twice gives the list back |
| StableSort.SortByPermutes | rename_dir_and_img.py:10 | sorting by key keeps every element exactly as often as it occurs |
| StableSort.SortByIsSorted | mangapark_parser.py:99 | the sorted list is non-decreasing by key under a total preorder |
| StableSort.SortByIsStable | generate_json.py:27 | for a list without repeats, elements with equivalent keys keep their input order |
| StableSort.SortBySorted | generate_json.py:37 | sorting an already sorted list changes nothing |
| Fetch.FirstDecisive | mangapark_parser.py:154 | the first attempt that does not fail with a caught error, with every attempt before it caught |
| Fetch.RetryShape | mangapark_parser.py:154-169 | at most `retries` requests; every request but the last failed with a caught error; the loop saves on a success and raises on an uncaught error; it gives up only after `retries` caught errors |
| Fetch.RetryGivesUpIff | toongod_parser.py:355-371 | the loop gives up exactly when every allowed attempt fails with a caught error |
| Fetch.RetryFirstSuccess | mangapark_parser.py:161 | a first attempt that succeeds is the only request |
| Fetch.RetryMonotone | mangapark_parser.py:146 | more retries never change a run that did not give up |
| Fetch.GiveUpEarlyVsRetry | toomics_parser.py:46-51 | with the `return None` inside `except`, one request is sent, and it saves exactly when a full retry loop would save on its first attempt |
| Fetch.GiveUpEarlyRaises | toomics_parser.py:47-48 | the early-return loop raises exactly when `retries` is 1 and that attempt failed |
| Fetch.DownloadImage | toomics_parser.py:30-52 | `download_image` of toomics and daycomics: its outcome and request count are the early-return loop's, and it sleeps once, 1 s, exactly when it gave up after its one request |
| Naming.NameTailInjective | daycomics_scraper.py:1566 | `f"{n}_{i + 1}.{ext}"` determines the episode, the position and the extension |
| Naming.AllowedOrJpg | mangapark_parser.py:188-189 | an allowed extension is kept; anything else becomes ".jpg"; the result is always allowed |
| Naming.PaddedImageNameInjective | mangapark_parser.py:190 | within an episode, `episode_{NNN}_{III}{ext}` determines the position and the extension |
| Mangapark.BlankForbidden | mangapark_parser.py:56 | each of `\ / : * ? " < >` and the vertical bar becomes a space; every other character stays; the length is kept |
| Mangapark.CollapseNoForbidden | mangapark_parser.py:57 | collapsing whitespace brings in no forbidden character |
| Mangapark.SanitizeShape | mangapark_parser.py:55-58 | the sanitised name is never empty, has no forbidden character, no leading or trailing whitespace, and no run of two whitespace characters |
| Mangapark.DefaultNameClean | mangapark_parser.py:58 | "mangapark_comic" is such a name |
| Mangapark.StripKeepsClean | mangapark_parser.py:57 | stripping a collapsed, forbidden-free text gives a clean name |
| Mangapark.SanitizeContent | mangapark_parser.py:55-58 | the name is "mangapark_comic" exactly when the title has no visible allowed character; otherwise its non-whitespace characters are exactly those of the title outside the forbidden set |
| Mangapark.SlugToLabelShape | mangapark_parser.py:61-70 | every label begins with "Chapter" and contains no "-" |
| Mangapark.CleanedLabelShape | mangapark_parser.py:67-70 | the label of a tail without "-chapter-" begins with "Chapter" and has no "-", on both branches of the "chapter" test |
| Mangapark.PrefixedLabelShape | mangapark_parser.py:63-66 | the label after "-chapter-" begins with "Chapter" and has no "-" |
| Mangapark.SlugToLabelUsesTail | mangapark_parser.py:62 | the label depends only on the text after the last "/" |
| Mangapark.NumberedFirst | mangapark_parser.py:77-81 | every numbered key orders strictly before every `inf` key |
| Mangapark.KeyLeTotalPreorder | mangapark_parser.py:99 | tuple order on the keys is total and transitive |
| Mangapark.MatchDecimal | mangapark_parser.py:76 | `\d+(?:\.\d+)?` matches at the front exactly when the text begins with a digit, and the match is non-empty |
| Mangapark.KeyOfTail | mangapark_parser.py:76-81 | a tail is numbered exactly when it begins with a digit; an unnumbered key keeps the whole tail; a numbered key's suffix is a proper suffix of the tail |
| Mangapark.ChapterSortKeyOfNumber | mangapark_parser.py:73-81 | a URL ending in `.../chapter-<n><rest>` is keyed by `(n, rest)` |
| Mangapark.KeyTailOfChapter | mangapark_parser.py:74-75 | the key tail of `.../chapter-<t>` is `t` |
| Mangapark.IndexChapters | mangapark_parser.py:89-98 | the dict's keys, in insertion order, are the base domain plus each distinct matched path in first-seen order, and each entry is that path's chapter |
| Mangapark.IndexStep | mangapark_parser.py:93-98 | one iteration adds the match's URL only when it is not yet a key |
| Mangapark.ExtractChapterLinks | mangapark_parser.py:88-100 | the links are the URL and label of the stable key-sorted first-seen chapters |
| Mangapark.KeyedByFullUrl | mangapark_parser.py:92-93 | a full URL is already a key exactly when its path was already seen |
| Mangapark.ChapterLinksDistinct | mangapark_parser.py:88-100 | no URL is listed twice |
| Mangapark.ChapterLinksCover | mangapark_parser.py:88-100 | the chapters listed are exactly those of the matched paths |
| Mangapark.ChapterLinksOrdered | mangapark_parser.py:99 | the list is sorted by chapter key, and equal keys keep first-seen order |
| Mangapark.ExtractImageUrls | mangapark_parser.py:103-111 | the result is the first-seen deduplication of the matches |
| Mangapark.DownloadFile | mangapark_parser.py:154-169 | the run is `Retry(script, retries)`; it sleeps `2 * attempt` after each caught failure but the last |
| Mangapark.Suffix | mangapark_parser.py:187 | `Path.suffix` is empty or a dot-led proper ending of the name |
| Mangapark.ImageExtensionIgnoresQuery | mangapark_parser.py:186-187 | the query never influences the extension |
| Mangapark.ImageNameInjective | mangapark_parser.py:190 | distinct image positions get distinct file names |
| Mangapark.Present | mangapark_parser.py:207 | `[name for name in results if name]` is no longer than the slots |
| Mangapark.Worker | mangapark_parser.py:184-203 | a worker writes only its own slot, and writes the file name exactly when the download saved |
| Mangapark.DownloadImages | mangapark_parser.py:172-207 | the batch raises exactly when some download raises; otherwise it returns the filled slots' names in index order |
| Mangapark.DownloadedNamesSpec | mangapark_parser.py:182-207 | at most one name per URL, no name twice, and each name is that of an image whose download was saved |
| Mangapark.DownloadedComplete | mangapark_parser.py:198-207 | every image whose download was saved has its name listed |
| Mangapark.DownloadedInOrder | mangapark_parser.py:182-207 | names are listed in image index order: of two listed names, the earlier belongs to a saved image with a smaller index |
| Mangapark.PresentSpec | mangapark_parser.py:207 | reading off the filled slots keeps distinct values distinct and invents none |
| Mangapark.PresentComplete | mangapark_parser.py:207 | the value of every filled slot is listed |
| Mangapark.PresentOrder | mangapark_parser.py:207 | listed values keep the order of their slots |
| Mangapark.NormalizeThumbnailUrl | mangapark_parser.py:258-262 | the URL is a suffix of the result and only a leading "/" changes anything; a "//" URL gains exactly the "https:" scheme, a "/" path gains the base domain, and either way the result is an "https://" URL |
| Mangapark.NormalizeThumbnailIdempotent | mangapark_parser.py:258-262 | normalising twice is normalising once |
| Mangapark.DownloadThumbnail | mangapark_parser.py:251-271 | no URL gives "" without a request; otherwise the normalised URL is fetched, and the result is "thumbnail.jpg" on success, "" after giving up, an error when one escapes |
| Toongod.SanitizeShape | toongod_parser.py:152-155 | the name is non-empty, stripped, and holds only ASCII letters, digits, spaces and underscores (no "-") |
| Toongod.CleanedChars | toongod_parser.py:153-154 | once gaps are spaces, the kept characters are word characters and spaces |
| Toongod.StripClean | toongod_parser.py:155 | stripping such a text leaves it empty or clean |
| Toongod.DefaultNameClean | toongod_parser.py:155 | "toongod_comic" is clean |
| Toongod.SanitizeContent | toongod_parser.py:152-155 | the fallback is used exactly when the title has no letter, digit or underscore; otherwise exactly those characters survive, in order |
| Toongod.WordsSurvive | toongod_parser.py:153-155 | every letter, digit and underscore of the title survives the three steps |
| Toongod.GetFirstText | toongod_parser.py:158-167 | the loop returns `FirstText` of the selectors' texts |
| Toongod.FirstTextAt | toongod_parser.py:158-167 | the text is selector `k`'s stripped text, every earlier selector was missing or blank, and "" when all were |
| Toongod.FirstTextStripped | toongod_parser.py:162 | the returned text is already stripped |
| Toongod.GetAllText | toongod_parser.py:170-183 | the loop returns `AllText` of the selectors' texts |
| Toongod.CollectKeeps | toongod_parser.py:177-180 | the inner loop keeps what was collected in front and adds no value twice |
| Toongod.CollectMembers | toongod_parser.py:177-180 | it adds exactly the non-blank stripped texts not yet collected |
| Toongod.AllTextAt | toongod_parser.py:181-182 | the result is the collection of the first selector that yields one; every earlier selector yielded none |
| Toongod.AllTextSpec | toongod_parser.py:170-183 | the list has no duplicates, is empty exactly when every selector is blank, and otherwise holds exactly the values of one selector whose predecessors were blank |
| Toongod.GetFirstAttribute | toongod_parser.py:186-196 | the loop returns `FirstAttribute` of the values |
| Toongod.FirstValueAt | toongod_parser.py:192-195 | within one selector the value is that of the first element with a non-empty one |
| Toongod.FirstAttributeAt | toongod_parser.py:186-196 | the value is element `j` of selector `i`, the first non-empty value in selector then element order; None when there is none |
| Toongod.LabelOf | toongod_parser.py:224 | the label is the stripped link text when that is non-empty, and empty only when the link text is blank |
| Toongod.FindDate | toongod_parser.py:226-237 | the date is the stripped text of the first date selector that matched, or "" |
| Toongod.EpisodeOf | toongod_parser.py:240-244 | an episode's URL is the row's href |
| Toongod.ScanGroups | toongod_parser.py:213-247 | the phase returns the scan of the first selector that takes something |
| Toongod.CollectEpisodeLinks | toongod_parser.py:209-291 | link selectors first, container selectors only when they gave nothing, the result reversed |
| Toongod.ScanUrls | toongod_parser.py:221-239 | every entry has a non-empty URL not seen before, and no URL appears twice |
| Toongod.ScanFresh | toongod_parser.py:221-222 | entry `k` has a non-empty, unseen URL |
| Toongod.ScanTakes | toongod_parser.py:219-244 | every non-empty href not seen before is taken |
| Toongod.ScanTakenAt | toongod_parser.py:219-244 | entry `k` is the episode of the `k`-th row taken |
| Toongod.TakenOrigin | toongod_parser.py:221-239 | the `k`-th row taken is the first row carrying its href, and that href was not seen |
| Toongod.ScanOrigin | toongod_parser.py:219-244 | each entry comes from the first row with its URL, whose label and date it carries |
| Toongod.ScanEmptyIff | toongod_parser.py:246 | a selector takes nothing exactly when none of its rows has an href |
| Toongod.FirstScanAt | toongod_parser.py:246-247 | the search ends at the first selector whose scan takes something |
| Toongod.FirstScanTarget | toongod_parser.py:213-247 | that is the first selector with an href, and all before it have none |
| Toongod.LinksShadowContainers | toongod_parser.py:249 | when a link selector has an href, the containers are never consulted |
| Toongod.ContainersWhenNoLinks | toongod_parser.py:249-289 | when no link selector has an href, the list comes from the containers |
| Toongod.Candidates | toongod_parser.py:305 | one candidate per attribute, in the order data-src, data-original, data-lazy-src, src |
| Toongod.PickUrl | toongod_parser.py:305-311 | the attribute loop returns `Pick` of the element's candidates |
| Toongod.ExtractImageUrls | toongod_parser.py:294-316 | the URLs are those of the first selector whose elements give any |
| Toongod.ScanSelector | toongod_parser.py:304-311 | the element loop of one selector, with one shared seen set |
| Toongod.PickAt | toongod_parser.py:305-311 | an element contributes its first candidate that is non-empty, not a `data:image` URI and not seen; a seen value falls through to the next attribute |
| Toongod.ScanImagesUrls | toongod_parser.py:304-311 | every URL collected is usable and new, and none is collected twice |
| Toongod.ScanImagesCover | toongod_parser.py:304-311 | an element with a usable candidate is never passed over: one of its usable candidates is seen or collected |
| Toongod.ScanImagesOrigin | toongod_parser.py:304-311 | each collected URL is some element's pick against the URLs seen before it |
| Toongod.ImageUrlsAt | toongod_parser.py:294-316 | the result is the scan of the first selector whose elements give a URL; every earlier selector gives none; it is empty only when no selector gives one; it holds no URL twice |
| Toongod.Headers | toongod_parser.py:353 | a Referer header is sent exactly when a non-empty referer is given, and it is that referer |
| Toongod.DownloadFile | toongod_parser.py:344-371 | the run is `Retry(script, retries)`; it sleeps `attempt` seconds after every caught failure, the last included |
| Toongod.SplitExtShape | toongod_parser.py:401 | `os.path.splitext`'s extension is empty or a dot-led proper suffix of the path |
| Toongod.SplitExtOfName | toongod_parser.py:401 | a path ending in `stem.x` has extension `.x` |
| Toongod.ImageExtension | toongod_parser.py:401-403 | the extension is always in the allow-list |
| Toongod.ImageExtensionOfName | toongod_parser.py:401-403 | a file name `stem.x` keeps its lower-cased extension when allowed, else ".jpg" |
| Toongod.ImageExtensionIgnoresQuery | toongod_parser.py:401 | the query never decides the extension |
| Toongod.ImageNamesDiffer | toongod_parser.py:404 | different positions never share a file name |
| Toongod.Record | toongod_parser.py:410-420 | the record lists the saved names, its thumbnail is the first of them or "", it carries the episode's URL, label and date and the comic's name, and its title and slug begin with "episode " and "episode-" |
| Toongod.RecordTitlesDiffer | toongod_parser.py:414-415 | different episode numbers give different titles and slugs |
| Toongod.ScrapeEpisode | toongod_parser.py:395-420 | it raises exactly when some download raises; otherwise the record lists the saved names in page order |
| Toongod.NamesAt | toongod_parser.py:400-408 | each listed name is that of a saved image's position |
| Toongod.NamesComplete | toongod_parser.py:406-408 | every saved image is listed |
| Toongod.FileNamesDistinct | toongod_parser.py:404 | different positions have different file names |
| Toongod.NamesDistinct | toongod_parser.py:399-408 | at most one name per image, and no name twice |
| Toomics.DownloadImageNeverRaises | toomics_parser.py:30-52 | with the default five retries, `download_image` sends one request and never raises |
| Toomics.QueueExtension | toomics_parser.py:138-140 | the extension holds no "." |
| Toomics.QueueExtensionOf | toomics_parser.py:138-140 | a URL `stem.ext` keeps `ext`, query included, unless it contains "com", when it is "jpg" |
| Toomics.QueueNameInjective | toomics_parser.py:145 | the name determines the image index and the extension |
| Toomics.Queue.constructor | toomics_parser.py:124-125 | every slot starts empty, with no failed attempts and nothing completed |
| Toomics.Queue.SetResult | toomics_parser.py:145 | sets one slot and leaves the others |
| Toomics.Queue.ProcessImage | toomics_parser.py:128-163 | one worker: with a URL its slot gets the name; without one it tries three times, sleeping 2 and 4 s, and records 3 failed attempts; `completed` rises by exactly one; no other slot changes |
| Toomics.DownloadImagesWithQueue | toomics_parser.py:116-169 | the list is the set slots in index order, `completed` ends at the number of images, and the failed attempts are those of the images without a URL |
| Toomics.FailedUpToStep | toomics_parser.py:152 | each image adds only its own entry to the failed attempts |
| Toomics.ListedAt | toomics_parser.py:169 | each listed name comes from a slot |
| Toomics.ListedDistinct | toomics_parser.py:169 | slots with distinct names give a list without repeats |
| Toomics.ListedAll | toomics_parser.py:169 | when every slot is set, the list is the slots' names in order, one per image |
| Toomics.QueueNamesSpec | toomics_parser.py:124-169 | no name twice; when every image has a URL, exactly one name per image, in index order |
| Toomics.CleanTitleSpec | toomics_parser.py:243 | the cleaned title has none of `, ' - " . ! ? : ;`, keeps every other character and adds none, and cleaning again changes nothing |
| Toomics.CleanTitleLocal | toomics_parser.py:243 | cleaning works character by character, keeping every other character in place |
| Toomics.CleanTitleUnchanged | toomics_parser.py:243 | a title without those characters is left as it is |
| Toomics.GenresSpec | toomics_parser.py:249 | an empty scrape raises; otherwise one genre per "/"-piece, each stripped and free of "/", joining back to the text when the pieces carry no surrounding whitespace |
| Toomics.ThumbnailName | toomics_parser.py:251-252 | the name is "thumbnail." followed by a dot-free extension |
| Toomics.ThumbnailNameOf | toomics_parser.py:342-343 | `stem.ext` is saved as `thumbnail.ext` |
| Toomics.EpisodeTag | toomics_parser.py:384 | the tag holds only ASCII letters, digits and underscores |
| Toomics.EpisodeTagOfNumber | toomics_parser.py:383-384 | for an episode numbered with digits, the folder name and the image tag are that number |
| Daycomics.DownloadImageNeverRaises | daycomics_scraper.py:884-906 | with the default three retries, `download_image` sends one request and never raises |
| Daycomics.LockText | daycomics_scraper.py:1182 | the label is never empty, and "FREE" without a button |
| Daycomics.LockSpec | daycomics_scraper.py:1182-1201 | locked exactly when a lock word or positive count is present and no open word; an all-digit label is locked exactly when positive; no button means open |
| Daycomics.EntryOf | daycomics_scraper.py:1173-1218 | the record the list script builds: its lock flag is the classifier's verdict on the button label (so only an episode with a button can be locked), it carries the comic title, date and link, and its thumbnail is missing exactly when `src` is the loading placeholder and there is no `data-src` |
| Daycomics.ReverseEpisodes | daycomics_scraper.py:1226 | the array is reversed in place |
| Daycomics.Swap | daycomics_scraper.py:1226 | exchanges two records and leaves the others |
| Daycomics.ImageExtension | daycomics_scraper.py:1557-1561 | the extension has no "?" |
| Daycomics.ImageExtensionOf | daycomics_scraper.py:1557-1561 | `stem.ext?query` keeps `ext` when neither part says "com" |
| Daycomics.ImageExtensionComInQuery | daycomics_scraper.py:1558 | the "com" test runs before the query is cut: "com" in the query gives "jpg" |
| Daycomics.DiskAndManifestName | daycomics_scraper.py:1564-1566 | the disk name and the manifest name differ only in the case of the first letter |
| Daycomics.ManifestNameInjective | daycomics_scraper.py:1566 | within an episode the manifest name determines the position and the extension |
| Daycomics.ManifestNames | daycomics_scraper.py:1543-1566 | one manifest name per collected URL |
| Daycomics.ManifestNamesDistinct | daycomics_scraper.py:1566 | the manifest lists no image twice |
| Daycomics.ProcessedSpec | daycomics_scraper.py:1432-1566 | episodes before `start_episode` are untouched; the others are titled and slugged by position; an episode without a thumbnail raises there and keeps its images and URL; otherwise it gets thumbnail "thumbnail.jpg", and it gets images, one manifest name per collected URL, and loses its URL exactly when it has a URL and is not locked; lock fields, date and comic title never change |
| Daycomics.ImagesExactlyWhenUnlocked | daycomics_scraper.py:1182-1566 | for a record the list script built, the pass collects images exactly when the episode is reached, has a thumbnail and a URL, and its button label is not classified locked; the images are then the manifest names |
| Daycomics.FirstCrashFrom | daycomics_scraper.py:1429-1450 | the first position whose pass raises on a missing thumbnail, with no earlier pass raising; the number of episodes when none raises |
| Daycomics.ProcessEpisodes | daycomics_scraper.py:1429-1566 | the loop raises exactly when some reached episode has no thumbnail; every record up to and including the first that raises becomes `Processed` at its 1-based position, and the later ones are untouched |
| Daycomics.ProcessEpisode | daycomics_scraper.py:1430-1566 | one pass leaves the record `Processed`, and raises exactly when the episode is reached and has no thumbnail |
| Daycomics.Store | daycomics_scraper.py:1443-1444 | writes one record and leaves the others |
| Daycomics.NameImages | daycomics_scraper.py:1550-1566 | the manifest names of the episode's images, whatever each download did |
| Daycomics.SaveImage | daycomics_scraper.py:1556-1566 | the name recorded for one image is its manifest name |
| Daycomics.ScrapeEpisodes | daycomics_scraper.py:1226-1566 | the list is reversed, then processed at the new positions up to the first pass that raises, which the method reports |
| Daycomics.NormalizedTitleSpec | daycomics_scraper.py:1574 | the title keeps exactly its ASCII letters and whitespace, in order; normalising again changes nothing |
| Daycomics.SplitKeywords | daycomics_scraper.py:1577-1583 | genres are the items not starting with "#", tags those that do, each in input order |
| Daycomics.KeywordsPartition | daycomics_scraper.py:1577-1583 | the two lists partition the items |
| Daycomics.FirstPresentAt | daycomics_scraper.py:1588-1591 | the preview is the first present extension among webp, jpg, jpeg, png, gif, or none when none is present |
| Daycomics.PreviewThumbnail | daycomics_scraper.py:1586-1591 | the path is `preview-thumbnail.<ext>` for the first present extension, else "" |
| Daycomics.ThumbnailLocalOf | daycomics_scraper.py:1594-1597 | `stem.ext?query` is recorded as `thumbnail.ext` |
| Daycomics.ComicRecord | daycomics_scraper.py:1572-1609 | the comic record: normalised and original titles, local thumbnail, preview, genres and tags |
| Honeytoon.Capitalize | honeytoon_parser.py:74 | `capitalize` keeps the length, leaves no lower-case first letter and no upper-case letter after it |
| Honeytoon.CapitalizeIdempotent | honeytoon_parser.py:74 | capitalising twice is capitalising once |
| Honeytoon.CapitalizeWord | honeytoon_parser.py:74 | a word stays a word, and only letters change |
| Honeytoon.DisplayTitleSpec | honeytoon_parser.py:72-74 | no apostrophe; the words are those of the apostrophe-free title, each capitalised; single spaces between them |
| Honeytoon.DisplayTitleIdempotent | honeytoon_parser.py:72-74 | formatting a display title again changes nothing |
| Honeytoon.OriginalTitle | honeytoon_parser.py:90 | the upper-cased title has the stripped title's length and no lower-case letter |
| Honeytoon.OriginalTitleSpec | honeytoon_parser.py:90 | upper-casing again changes nothing, and non-letters are kept in place |
| Honeytoon.ImageNameInjective | honeytoon_parser.py:191 | no two images, of one episode or of two, share a name |
| Honeytoon.ImageNames | honeytoon_parser.py:189-192 | one name per image |
| Honeytoon.Emitted | honeytoon_parser.py:164-226 | one episode per page that is not a prologue |
| Honeytoon.EmittedStep | honeytoon_parser.py:164-226 | a prologue adds nothing and leaves the counter; any other page adds the next-numbered record |
| Honeytoon.EmittedCount | honeytoon_parser.py:164-167 | episodes plus prologues are all the pages |
| Honeytoon.EmittedDistinct | honeytoon_parser.py:189-226 | titles, slugs and image names are never repeated within a comic |
| Honeytoon.ImageNamesDisjoint | honeytoon_parser.py:191 | two episodes share no image name |
| Honeytoon.ScrapeEpisodes | honeytoon_parser.py:152-226 | the loop emits exactly `Emitted`, with folders "1".."k" |
| Honeytoon.MakeRecord | honeytoon_parser.py:216-223 | the record of one episode page |
| Honeytoon.NameImages | honeytoon_parser.py:187-213 | every image is named, whatever became of its save |
| Honeytoon.ScrapeComic | honeytoon_parser.py:67-98 | the directory and title are the display title; the original title is upper-cased; fixed thumbnails; stripped genres and tags; the emitted episodes |
| Honeytoon.EpisodesNameParent | honeytoon_parser.py:217-221 | every record names its comic, with date "" and thumbnail "thumbnail.jpg" |
| GenerateJson.IntLeTotalPreorder | generate_json.py:27 | integer order is a total preorder |
| GenerateJson.EpisodeDirsSpec | generate_json.py:26-27 | the episode directories are exactly the all-digit subdirectories, as often as listed, in non-decreasing numeric order, and equal numbers keep listing order |
| GenerateJson.EpisodeImagesRaise | generate_json.py:35-37 | the image sort raises exactly when some image file has a non-integer key |
| GenerateJson.EpisodeImagesPermutes | generate_json.py:35-38 | otherwise the images are exactly the files starting with `episode_{dir}_` and ending with ".webp" |
| GenerateJson.EpisodeImagesOrdered | generate_json.py:37 | every key is then an integer and the images are in non-decreasing key order |
| GenerateJson.EpisodeImagesStable | generate_json.py:37 | images with equal keys keep listing order |
| GenerateJson.ImageFileNameKey | generate_json.py:35-37 | `episode_{n}_{i}.webp` is an image of episode `n` with key `i` |
| GenerateJson.WordImageIsImage | generate_json.py:35-36 | `episode_{n}_{w}.webp` is an image file of episode `n` |
| GenerateJson.WordImageKey | generate_json.py:37 | its key does not parse when `w` begins with a letter |
| GenerateJson.WordImageRaises | generate_json.py:37 | one such file makes the sort raise |
| GenerateJson.ComicRaises | generate_json.py:29-38 | a comic raises exactly when one of its episode sorts raises |
| GenerateJson.ComicSpec | generate_json.py:10-50 | title and original title are the base name; the optional thumbnails are None exactly when absent; tags are fixed; one episode per directory |
| GenerateJson.ComicEpisode | generate_json.py:29-50 | the `k`-th episode is the record of the `k`-th sorted directory |
| GenerateJson.ComicEpisodeFields | generate_json.py:40-48 | that episode is unlocked, titled "episode {d}", slugged "episode-{d}", dated "", has a thumbnail exactly when the file exists, and lists the sorted images |
| GenerateJson.ManifestSpec | generate_json.py:9-52 | the manifest raises exactly when a comic raises; otherwise one record per comic, in order |
| GenerateJson.GenerateToomicsJson | generate_json.py:6-52 | the loop builds `Manifest` |
| GenerateJson.BuildComic | generate_json.py:10-52 | one comic directory's record |
| GenerateJson.BuildEpisode | generate_json.py:30-50 | one episode directory's record |
| RenameDirs.KeyLeTotalPreorder | rename_dir_and_img.py:10 | the key order, with `inf` above every number, is a total preorder |
| RenameDirs.SortDirsSpec | rename_dir_and_img.py:10 | the sorted list holds the same names; all-digit names come first, in non-decreasing value |
| RenameDirs.SortDirsStable | rename_dir_and_img.py:10 | non-numeric names, and names of equal value, keep their listing order |
| RenameDirs.RenumberingSpec | rename_dir_and_img.py:14-16 | one key per listed name; the `i`-th of distinct names maps to `str(i + 1)` |
| RenameDirs.RenumberingValue | rename_dir_and_img.py:14-16 | every value is one of "1".."n" |
| RenameDirs.RenumberingHits | rename_dir_and_img.py:14-16 | each of "1".."n" is a value |
| RenameDirs.RenumberingOneToOne | rename_dir_and_img.py:14-16 | no two names share a new name |
| RenameDirs.BuildMapping | rename_dir_and_img.py:14-16 | the loop builds `Renumbering` |
| RenameDirs.DigitRun | rename_dir_and_img.py:34 | `\d+` consumes exactly the leading digits |
| RenameDirs.MatchAt | rename_dir_and_img.py:34 | a match at the front is at least ten characters long and ends where the second digit run does |
| RenameDirs.RewriteNoMatch | rename_dir_and_img.py:34 | a name without a match is unchanged |
| RenameDirs.RewriteHead | rename_dir_and_img.py:34 | a match at the front becomes `episode_{new}_` and its second group, and the scan goes on after it |
| RenameDirs.RewriteImageName | rename_dir_and_img.py:34 | a scraper name `episode_<n>_<i>.<ext>` becomes `episode_{new}_<i>.<ext>` |
| RenameDirs.RewriteFirst | rename_dir_and_img.py:34 | a rewritten name begins with a digit only if the name did |
| RenameDirs.NoNewMatch | rename_dir_and_img.py:34 | rewriting cannot create a match where there was none |
| RenameDirs.RewriteIdempotent | rename_dir_and_img.py:34 | rewriting twice with the same all-digit directory number is rewriting once |
| RenameDirs.TempName | rename_dir_and_img.py:22 | the temporary name differs from the new name |
| RenameDirs.Pairs | rename_dir_and_img.py:20 | `dir_mapping.items()` pairs the `i`-th name with `str(i + 1)`, in insertion order |
| RenameDirs.ListNames | rename_dir_and_img.py:31 | `os.listdir` lists each entry once, in some order |
| RenameDirs.MoveFileStep | rename_dir_and_img.py:39 | moving one file into the new directory under its rewritten name |
| RenameDirs.MoveFilesAll | rename_dir_and_img.py:31-39 | moving all listed files succeeds and fills the new directory with the renamed files |
| RenameDirs.PairMovesFiles | rename_dir_and_img.py:20-41 | when the new name is free, the old directory's files end up in the new directory under rewritten names and the old and temporary directories are gone |
| RenameDirs.RenamedKeys | rename_dir_and_img.py:34-39 | the new directory holds exactly what it had and the rewritten names |
| RenameDirs.RenamedUntouched | rename_dir_and_img.py:39 | a name that no file is rewritten to keeps its entry |
| RenameDirs.RenamedLast | rename_dir_and_img.py:39 | when two files get the same rewritten name, the one moved last wins |
| RenameDirs.RenamedInjective | rename_dir_and_img.py:34-39 | with distinct rewritten names, every file keeps its contents under its new name |
| RenameDirs.RunPairsStops | rename_dir_and_img.py:20-46 | once a turn fails, no later turn runs |
| RenameDirs.SelectDirs | rename_dir_and_img.py:8 | the directories among the listing, in listing order |
| RenameDirs.FileSystem.constructor | rename_dir_and_img.py:6 | the file system starts as given |
| RenameDirs.FileSystem.RenamePair | rename_dir_and_img.py:21-41 | one turn: move to `temp_<new>`, create `<new>`, move every listed file under its rewritten name, remove the temporary directory, stopping at the first failure |
| RenameDirs.FileSystem.Turn | rename_dir_and_img.py:20-41 | the next turn extends the run of the turns before it |
| RenameDirs.FileSystem.RenameAll | rename_dir_and_img.py:20-46 | the loop runs the turns in mapping order and stops at the first failing turn, which it reports instead of raising |
| RenameDirs.FileSystem.RenameDirectoriesAndImages | rename_dir_and_img.py:6-46 | list, keep directories, sort, renumber, then the turns up to the first failure |

## Left out

- Browser automation is not modelled: Selenium and Playwright sessions, logins, clicks, waits, scrolling, modal handling and the Cloudflare wait. Their findings are inputs to the model.
- HTTP and file I/O are not modelled beyond the outcome of each attempt. The bytes written, aiohttp, requests and aiofiles are left out, and so are `os.makedirs` for the scraper folders and `info.txt`.
- Concurrency is not modelled: semaphores and `asyncio.gather`. Each worker writes only its own slot, so a sequential loop gives the same list.
- Floating point is left out: the progress bars, and the float keys of `chapter_sort_key`. Decimal chapter numbers are exact reals, and `inf` is a separate key tag.
- Regular expressions, BeautifulSoup and CSS selectors are not engines here. Each pattern the core uses is written out as a character predicate or a scanner.
- Character classes are ASCII only: `isdigit`, `\d`, case mapping and `title()`. Python's `\s` and `isspace`, and JavaScript's `trim`, are given as explicit Unicode whitespace sets.
- JSON and XML serialisation are left out, along with base64 decoding of `data:` URIs in honeytoon, argparse and the CLI, `.env` loading, and console and colour output.
- fetch_text, extract_text, extract_genres, scrape_comic and the save_results functions are left out. They are glue around the modelled pieces.
- The commented-out older copy at daycomics_scraper.py:1-852 is not modelled.
- Daycomics and toomics thumbnail downloads are left out. They call `download_image`, which never raises with its default retries (DownloadImageNeverRaises), and the names they record are fixed or given by ThumbnailLocal and ThumbnailName.
- Honeytoon image saves are not modelled: base64 or HTTP, with the error caught and printed. Names are listed whatever the outcome, and NameImages states exactly that.
- Daycomics.ScrapeEpisodes: reports the AttributeError of a missing episode thumbnail as `raised`. The per-comic handler at daycomics_scraper.py:1616 then drops the comic and records its URL as failed; that handler and the list of comics are not modelled.
- Daycomics.EntryOf: an episode link without a `.flexItem img` makes the page script itself throw; that browser-side failure is not modelled.
- Fetch.DownloadImage: the sleep `asyncio.sleep(attempt)` of toomics and the `sleep(1)` of daycomics coincide, because the sleep happens only after attempt 1.
- RenameDirs.FileSystem.RenameDirectoriesAndImages: what `shutil.move` does across file systems (its copy fallback) is not modelled, and neither are symbolic links or permissions. `shutil.rmtree` with `ignore_errors` is all or nothing.
- RenameDirs.ListNames: `os.listdir` order is a nondeterministic choice. Results hold for every order.
- RenameDirs.PairMovesFiles: stated only for a new name that is free (or the old name itself) and a temporary name that is free. Other collisions are modelled in RenamePair but have no lemma of their own.
- RenameDirs.FileSystem.RenameAll: no lemma states the whole-run result, that directory `i` ends up as `str(i)`. The run is characterised turn by turn through RunPairs and PairMovesFiles.
- Toongod.LabelOf: states only the stripped-text branch. The fall-back to the stripped `title` attribute is in the definition but not in the contract.
- Mangapark.DownloadFile and Toongod.DownloadFile: the `ensure_directory` call and the header dictionary of mangapark are left out.
