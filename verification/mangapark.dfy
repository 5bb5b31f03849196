/** The deterministic rules of the mangapark scraper: the comic directory name,
    chapter labels and ordering, link and image-URL extraction from the regex
    matches found in a page, the download retry loop, image naming and the
    index-slotted assembly of the downloaded image list. */
module Mangapark {
  import opened Wrappers
  import opened Seqs
  import opened Text
  import opened StableSort
  import opened Fetch
  import opened Naming

  const BaseDomain: String := "https://mangapark.io"
  const DefaultName: String := "mangapark_comic"

  // ---------------------------------------------------------------------
  // sanitize_filename

  /** The characters a file name may not contain: `\ / : * ? " < > |`. */
  predicate IsForbidden(c: char) {
    c == '\\' || c == '/' || c == ':' || c == '*' || c == '?' || c == '"'
    || c == '<' || c == '>' || c == '|'
  }

  /** A character that survives sanitising as itself. */
  predicate IsKept(c: char) {
    !IsForbidden(c) && !IsPySpace(c)
  }

  /** First step: each forbidden character becomes a space. */
  function BlankForbidden(s: String): (r: String)
    ensures |r| == |s|
    ensures forall i :: 0 <= i < |s| ==> r[i] == (if IsForbidden(s[i]) then ' ' else s[i])
  {
    seq(|s|, i requires 0 <= i < |s| => if IsForbidden(s[i]) then ' ' else s[i])
  }

  /** Collapsing whitespace brings in no forbidden character. */
  lemma {:induction false} CollapseNoForbidden(s: String)
    requires forall i :: 0 <= i < |s| ==> !IsForbidden(s[i])
    ensures forall i :: 0 <= i < |CollapseRuns(s, IsPySpace)| ==> !IsForbidden(CollapseRuns(s, IsPySpace)[i])
    decreases |s|
  {
    if s != [] {
      var head, rest := if IsPySpace(s[0]) then ' ' else s[0], if IsPySpace(s[0]) then s[LeadingCount(s, IsPySpace)..] else s[1..];
      CollapseNoForbidden(rest);
      var r, t := CollapseRuns(s, IsPySpace), CollapseRuns(rest, IsPySpace);
      assert r == [head] + t;
      forall i | 0 <= i < |r| ensures !IsForbidden(r[i]) {
        if i > 0 {
          assert r[i] == t[i - 1];
          assert !IsForbidden(t[i - 1]);
        } else {
          assert r[0] == head;
          assert !IsForbidden(head);
        }
      }
    }
  }

  /** `sanitize_filename`: forbidden characters become spaces, whitespace runs
      collapse to one space, the ends are stripped, and an empty result falls
      back to "mangapark_comic". */
  function SanitizeFilename(text: String): (r: String)
    ensures r != []
  {
    var safe := Strip(CollapseRuns(BlankForbidden(text), IsPySpace));
    if safe == [] then DefaultName else safe
  }

  /** A usable directory name: no forbidden character, no whitespace at either
      end, no two whitespace characters in a row, and only the plain space as
      whitespace. */
  ghost predicate IsCleanName(r: String) {
    && (forall i :: 0 <= i < |r| ==> !IsForbidden(r[i]))
    && (r != [] ==> !IsPySpace(r[0]) && !IsPySpace(r[|r| - 1]))
    && (forall i :: 0 <= i < |r| - 1 ==> !(IsPySpace(r[i]) && IsPySpace(r[i + 1])))
    && (forall i :: 0 <= i < |r| && IsPySpace(r[i]) ==> r[i] == ' ')
  }

  /** The sanitised name is never empty and is clean. */
  lemma SanitizeShape(text: String)
    ensures SanitizeFilename(text) != []
    ensures IsCleanName(SanitizeFilename(text))
  {
    var blanked := BlankForbidden(text);
    var collapsed := CollapseRuns(blanked, IsPySpace);
    CollapseNoForbidden(blanked);
    StripKeepsClean(collapsed);
    if Strip(collapsed) == [] {
      DefaultNameClean();
    }
  }

  lemma DefaultNameClean()
    ensures IsCleanName(DefaultName)
  {
    assert forall i :: 0 <= i < |DefaultName| ==> IsLowerAscii(DefaultName[i]) || DefaultName[i] == '_';
  }

  /** Stripping a text whose whitespace is already collapsed to single spaces
      gives a clean name. */
  lemma StripKeepsClean(c: String)
    requires forall i :: 0 <= i < |c| ==> !IsForbidden(c[i])
    requires forall i :: 0 <= i < |c| - 1 ==> !(IsPySpace(c[i]) && IsPySpace(c[i + 1]))
    requires forall i :: 0 <= i < |c| && IsPySpace(c[i]) ==> c[i] == ' '
    ensures IsCleanName(Strip(c))
  {
    TrimByShape(c, IsPySpace);
    var r := Strip(c);
    var off := LeadingCount(c, IsPySpace);
    assert forall i :: 0 <= i < |r| ==> r[i] == c[off + i];
  }

  /** Sanitising loses exactly the forbidden and whitespace characters: what is
      left between the single spaces are the other characters of the input, in
      order; and only when there are none is the result the fallback name. */
  lemma SanitizeContent(text: String)
    ensures var r := SanitizeFilename(text);
      if Filter(text, IsKept) == [] then r == DefaultName
      else Reject(r, IsPySpace) == Filter(text, IsKept)
  {
    var blanked := BlankForbidden(text);
    var collapsed := CollapseRuns(blanked, IsPySpace);
    CollapseKeepsContent(blanked, IsPySpace);
    TrimKeepsContent(collapsed, IsPySpace);
    BlankThenReject(text);
    TrimByShape(collapsed, IsPySpace);
    if Filter(text, IsKept) == [] {
      NoVisibleMeansEmpty(Strip(collapsed));
    }
  }

  lemma {:induction false} BlankThenReject(text: String)
    ensures Reject(BlankForbidden(text), IsPySpace) == Filter(text, IsKept)
  {
    if text != [] {
      var b := BlankForbidden(text);
      assert b[1..] == BlankForbidden(text[1..]);
      BlankThenReject(text[1..]);
    }
  }

  lemma NoVisibleMeansEmpty(s: String)
    requires s == [] || (!IsPySpace(s[0]) && !IsPySpace(s[|s| - 1]))
    requires Reject(s, IsPySpace) == []
    ensures s == []
  {
  }

  // ---------------------------------------------------------------------
  // slug_to_label

  const ChapterWord: String := "Chapter"

  /** `slug_to_label`: a human label for a chapter path, built from the text after
      its last "/". */
  function SlugToLabel(slug: String): String {
    LabelOfTail(AfterLast(slug, '/'))
  }

  /** The label made from the last path segment. */
  function LabelOfTail(tail: String): String {
    if Contains(tail, "-chapter-") then
      var part := Strip(ReplaceChar(AfterFirst(tail, "-chapter-"), '-', ' '));
      Title(Strip("Chapter " + part))
    else
      var cleaned := Strip(ReplaceChar(tail, '-', ' '));
      if StartsWith(Lower(cleaned), "chapter") then Title(cleaned)
      else Title("Chapter " + cleaned)
  }

  /** Every label begins with "Chapter" and has no "-". */
  lemma SlugToLabelShape(slug: String)
    ensures StartsWith(SlugToLabel(slug), ChapterWord)
    ensures '-' !in SlugToLabel(slug)
  {
    LabelOfTailShape(AfterLast(slug, '/'));
  }

  lemma LabelOfTailShape(tail: String)
    ensures StartsWith(LabelOfTail(tail), ChapterWord)
    ensures '-' !in LabelOfTail(tail)
  {
    if Contains(tail, "-chapter-") {
      var replaced := ReplaceChar(AfterFirst(tail, "-chapter-"), '-', ' ');
      NoDashAfterStrip(replaced);
      PrefixedLabelShape(Strip(replaced));
    } else {
      var replaced := ReplaceChar(tail, '-', ' ');
      NoDashAfterStrip(replaced);
      CleanedLabelShape(Strip(replaced));
    }
  }

  /** The label made from the text after "-chapter-". */
  lemma PrefixedLabelShape(part: String)
    requires '-' !in part
    ensures StartsWith(Title(Strip("Chapter " + part)), ChapterWord)
    ensures '-' !in Title(Strip("Chapter " + part))
  {
    StripKeepsChapter(part);
    TitleKeepsChapter(Strip("Chapter " + part));
    ChapterPrefixNoDash(part);
    NoDashAfterStrip("Chapter " + part);
    TitleNoDash(Strip("Chapter " + part));
  }

  /** The label made from a whole tail without "-chapter-". */
  lemma CleanedLabelShape(cleaned: String)
    requires '-' !in cleaned
    ensures var name := if StartsWith(Lower(cleaned), "chapter") then Title(cleaned)
                         else Title("Chapter " + cleaned);
      StartsWith(name, ChapterWord) && '-' !in name
  {
    if StartsWith(Lower(cleaned), "chapter") {
      TitleKeepsChapter(cleaned);
      TitleNoDash(cleaned);
    } else {
      LowerChapterPrefix(cleaned);
      TitleKeepsChapter("Chapter " + cleaned);
      ChapterPrefixNoDash(cleaned);
      TitleNoDash("Chapter " + cleaned);
    }
  }

  lemma ChapterPrefixNoDash(part: String)
    requires '-' !in part
    ensures '-' !in "Chapter " + part
  {
    var t := "Chapter " + part;
    forall i | 0 <= i < |t| ensures t[i] != '-' {
      if i >= 8 {
        assert t[i] == part[i - 8];
      }
    }
  }

  lemma TitleNoDash(s: String)
    requires '-' !in s
    ensures '-' !in Title(s)
  {
    assert forall i :: 0 <= i < |s| ==> Title(s)[i] == TitleAt(s, i) && s[i] != '-';
  }

  lemma NoDashAfterStrip(s: String)
    requires '-' !in s
    ensures '-' !in Strip(s)
  {
    TrimByShape(s, IsPySpace);
    var r := Strip(s);
    var off := LeadingCount(s, IsPySpace);
    assert forall i :: 0 <= i < |r| ==> r[i] == s[off + i];
  }

  lemma LowerChapterPrefix(s: String)
    ensures StartsWith(Lower("Chapter " + s), "chapter")
  {
    var t := "Chapter " + s;
    assert Lower(t)[..7] == "chapter";
  }

  lemma StripKeepsChapter(part: String)
    ensures StartsWith(Lower(Strip("Chapter " + part)), "chapter")
  {
    var t := "Chapter " + part;
    TrimByShape(t, IsPySpace);
    assert LeadingCount(t, IsPySpace) == 0;
    assert !IsPySpace(t[6]);
    var r := Strip(t);
    assert |r| >= 7;
    assert r[..7] == t[..7];
    assert Lower(r)[..7] == "chapter";
  }

  /** Title-casing anything that begins with "chapter" in any case gives "Chapter". */
  lemma TitleKeepsChapter(s: String)
    requires StartsWith(Lower(s), "chapter")
    ensures StartsWith(Title(s), ChapterWord)
  {
    assert forall i :: 0 <= i < 7 ==> LowerChar(s[i]) == "chapter"[i];
    assert forall i :: 0 <= i < 7 ==> IsAsciiLetter(s[i]);
    assert Title(s)[..7] == ChapterWord;
  }

  /** The label depends only on the text after the last "/". */
  lemma SlugToLabelUsesTail(slug: String)
    ensures SlugToLabel(slug) == SlugToLabel(AfterLast(slug, '/'))
  {
    AfterLastNoSep(AfterLast(slug, '/'), '/');
  }

  lemma {:induction false} AfterLastNoSep(s: String, c: char)
    requires c !in s
    ensures AfterLast(s, c) == s
  {
    if s != [] {
      AfterLastNoSep(s[..|s| - 1], c);
      assert s[..|s| - 1] + [s[|s| - 1]] == s;
    }
  }

  // ---------------------------------------------------------------------
  // chapter_sort_key

  /** A chapter's sort key: `(number, rest)` when the tail begins with a decimal
      number, `(inf, tail)` otherwise. The number is exact; the float rounding of
      the source is not modelled. */
  datatype SortKey = Numbered(number: real, suffix: String) | Unnumbered(tail: String)

  /** Python's tuple ordering on the keys, with `inf` above every number. */
  predicate KeyLe(a: SortKey, b: SortKey) {
    match (a, b)
    case (Numbered(x, s), Numbered(y, t)) => x < y || (x == y && StrLe(s, t))
    case (Numbered(_, _), Unnumbered(_)) => true
    case (Unnumbered(_), Numbered(_, _)) => false
    case (Unnumbered(s), Unnumbered(t)) => StrLe(s, t)
  }

  /** Every numbered chapter orders before every unnumbered one. */
  lemma NumberedFirst(a: SortKey, b: SortKey)
    requires a.Numbered? && b.Unnumbered?
    ensures KeyLe(a, b) && !KeyLe(b, a)
  {
  }

  lemma KeyLeTotalPreorder()
    ensures TotalPreorder(KeyLe)
  {
    forall a, b ensures KeyLe(a, b) || KeyLe(b, a) {
      if a.Numbered? && b.Numbered? {
        StrLeTotal(a.suffix, b.suffix);
      } else if a.Unnumbered? && b.Unnumbered? {
        StrLeTotal(a.tail, b.tail);
      }
    }
    forall a, b, c | KeyLe(a, b) && KeyLe(b, c) ensures KeyLe(a, c) {
      if a.Numbered? && b.Numbered? && c.Numbered? {
        if a.number == b.number && b.number == c.number {
          StrLeTrans(a.suffix, b.suffix, c.suffix);
        }
      } else if a.Unnumbered? && b.Unnumbered? && c.Unnumbered? {
        StrLeTrans(a.tail, b.tail, c.tail);
      }
    }
  }

  function Pow10(n: nat): (p: nat)
    ensures p >= 1
  {
    if n == 0 then 1 else 10 * Pow10(n - 1)
  }

  /** The match of `\d+(?:\.\d+)?` at the start of `s`: its value and length. */
  function MatchDecimal(s: String): (m: Option<(real, nat)>)
    ensures m.Some? <==> s != [] && IsAsciiDigit(s[0])
    ensures m.Some? ==> 0 < m.value.1 <= |s|
  {
    var n := LeadingCount(s, IsAsciiDigit);
    if n == 0 then None
    else
      var whole := DigitsValue(s[..n]) as real;
      if n + 1 < |s| && s[n] == '.' && IsAsciiDigit(s[n + 1]) then
        var frac := s[n + 1..];
        var m := LeadingCount(frac, IsAsciiDigit);
        Some((whole + (DigitsValue(frac[..m]) as real) / (Pow10(m) as real), n + 1 + m))
      else Some((whole, n))
  }

  /** The text a chapter key is read from: the last path segment, after its first
      "chapter-" when it has one. */
  function KeyTail(url: String): String {
    var slug := AfterLast(url, '/');
    if Contains(slug, "chapter-") then AfterFirst(slug, "chapter-") else slug
  }

  /** The key read from a tail: its leading decimal number and what follows it,
      or the whole tail when it does not begin with a digit. */
  function KeyOfTail(tail: String): (k: SortKey)
    ensures k.Numbered? <==> tail != [] && IsAsciiDigit(tail[0])
    ensures k.Unnumbered? ==> k.tail == tail
    ensures k.Numbered? ==> |k.suffix| < |tail| && EndsWith(tail, k.suffix)
  {
    match MatchDecimal(tail)
    case Some((number, len)) => Numbered(number, tail[len..])
    case None => Unnumbered(tail)
  }

  /** `chapter_sort_key`. */
  function ChapterSortKey(url: String): SortKey {
    KeyOfTail(KeyTail(url))
  }

  /** A chapter URL ending in ".../chapter-<n><rest>" is keyed by (n, rest). */
  lemma ChapterSortKeyOfNumber(prefix: String, n: nat, rest: String)
    requires '/' !in rest
    requires rest == [] || (!IsAsciiDigit(rest[0]) && rest[0] != '.')
    ensures ChapterSortKey(prefix + "/chapter-" + NatToString(n) + rest) == Numbered(n as real, rest)
  {
    var digits := NatToString(n);
    var t := digits + rest;
    var url := prefix + "/chapter-" + digits + rest;
    assert url == prefix + "/chapter-" + t;
    assert '/' !in digits;
    KeyTailOfChapter(prefix, t);
    assert KeyTail(url) == t;
    KeyOfNumber(digits, rest);
    assert ChapterSortKey(url) == KeyOfTail(t);
  }

  /** The key tail of ".../chapter-<t>" is `t` when `t` has no "/". */
  lemma KeyTailOfChapter(prefix: String, t: String)
    requires '/' !in t
    ensures KeyTail(prefix + "/chapter-" + t) == t
  {
    var slug := "chapter-" + t;
    assert prefix + "/chapter-" + t == prefix + ['/'] + slug;
    assert '/' !in slug;
    AfterLastAppend(prefix, '/', slug);
    assert StartsWith(slug, "chapter-");
    assert AfterFirst(slug, "chapter-") == t;
  }

  /** A tail that is a canonical number followed by a non-digit, non-dot text is
      keyed by that number and that text. */
  lemma KeyOfNumber(digits: String, rest: String)
    requires IsDigits(digits)
    requires rest == [] || (!IsAsciiDigit(rest[0]) && rest[0] != '.')
    ensures KeyOfTail(digits + rest) == Numbered(DigitsValue(digits) as real, rest)
  {
    var tail := digits + rest;
    LeadingDigitsOf(digits, rest);
    assert tail[..|digits|] == digits;
    assert tail[|digits|..] == rest;
  }

  // ---------------------------------------------------------------------
  // extract_chapter_links

  /** An entry of the `seen` dict. Its three fields (`url`, `label`, `order`)
      are functions of the matched path the entry was made from, so the entry is
      represented by that path and the fields are computed from it. */
  datatype Chapter = Chapter(path: String) {
    /** `full_url`: the base domain followed by the path. */
    function Url(): String { BaseDomain + path }
    function Label(): String { SlugToLabel(path) }
    function Order(): SortKey { ChapterSortKey(Url()) }
  }

  /** A chapter link as returned: `{"url": ..., "label": ...}`. */
  datatype Link = Link(url: String, caption: String)

  function ChapterOrder(c: Chapter): SortKey { c.Order() }

  /** The entries made for `paths`, in order. */
  function ChaptersOf(paths: seq<String>): (r: seq<Chapter>)
    ensures |r| == |paths|
    ensures forall i :: 0 <= i < |r| ==> r[i].path == paths[i]
  {
    seq(|paths|, i requires 0 <= i < |paths| => Chapter(paths[i]))
  }

  /** The final list comprehension: each entry's URL and label. */
  function LinksOf(cs: seq<Chapter>): (r: seq<Link>)
    ensures |r| == |cs|
    ensures forall i :: 0 <= i < |r| ==> r[i] == Link(cs[i].Url(), cs[i].Label())
  {
    seq(|cs|, i requires 0 <= i < |cs| => Link(cs[i].Url(), cs[i].Label()))
  }

  /** The dict's values in insertion order: one entry per distinct matched path,
      in first-seen order. (The dict is keyed by the full URL, and the full URL
      determines the path.) */
  function SeenChapters(matches: seq<String>): seq<Chapter> {
    ChaptersOf(Dedup(matches))
  }

  /** The entries `extract_chapter_links` returns, before projection to links. */
  function SortedChapters(matches: seq<String>): seq<Chapter> {
    SortBy(SeenChapters(matches), ChapterOrder, KeyLe)
  }

  /** What the first loop of `extract_chapter_links` knows after `i` matches:
      the dict is keyed by the full URLs of the paths first seen so far, in that
      order, and what remains to be added is the first-seen paths of the rest. */
  ghost predicate Indexed(matches: seq<String>, i: nat, seen: map<String, Chapter>, order: seq<String>,
                          paths: seq<String>, seenPaths: set<String>)
  {
    && i <= |matches|
    && |order| == |paths|
    && (forall k :: 0 <= k < |order| ==> order[k] == BaseDomain + paths[k])
    && seen.Keys == (set u | u in order)
    && (forall k :: 0 <= k < |order| ==> seen[order[k]] == Chapter(paths[k]))
    && seenPaths == (set p | p in paths)
    && Dedup(matches) == paths + DedupFrom(matches[i..], seenPaths)
  }

  /** One iteration keeps `Indexed`. */
  lemma IndexStep(matches: seq<String>, i: nat, seen: map<String, Chapter>, order: seq<String>,
                  paths: seq<String>, seenPaths: set<String>)
    requires i < |matches| && Indexed(matches, i, seen, order, paths, seenPaths)
    ensures var relative := matches[i];
      var fullUrl := BaseDomain + relative;
      if fullUrl !in seen then
        Indexed(matches, i + 1, seen[fullUrl := Chapter(relative)], order + [fullUrl], paths + [relative], seenPaths + {relative})
      else
        Indexed(matches, i + 1, seen, order, paths, seenPaths)
  {
    DedupFromStep(matches, i, seenPaths);
    KeyedByFullUrl(order, paths, matches[i]);
    if BaseDomain + matches[i] !in seen {
      IndexAdd(matches, i, seen, order, paths, seenPaths);
    }
  }

  /** The step that adds the path of match `i`, not seen before. */
  lemma IndexAdd(matches: seq<String>, i: nat, seen: map<String, Chapter>, order: seq<String>,
                 paths: seq<String>, seenPaths: set<String>)
    requires i < |matches| && Indexed(matches, i, seen, order, paths, seenPaths)
    requires matches[i] !in seenPaths && BaseDomain + matches[i] !in seen
    requires DedupFrom(matches[i..], seenPaths) == [matches[i]] + DedupFrom(matches[i + 1..], seenPaths + {matches[i]})
    ensures var relative := matches[i];
      Indexed(matches, i + 1, seen[BaseDomain + relative := Chapter(relative)], order + [BaseDomain + relative],
              paths + [relative], seenPaths + {relative})
  {
    var relative := matches[i];
    AppendAssoc(paths, [relative], DedupFrom(matches[i + 1..], seenPaths + {relative}));
  }

  /** The first loop of `extract_chapter_links`: a dict from full URL to entry,
      keyed in the order the paths were first seen, one entry per distinct path. */
  method IndexChapters(matches: seq<String>) returns (seen: map<String, Chapter>, order: seq<String>)
    ensures |order| == |Dedup(matches)|
    ensures seen.Keys == set u | u in order
    ensures forall k :: 0 <= k < |order| ==> order[k] == BaseDomain + Dedup(matches)[k]
    ensures forall k :: 0 <= k < |order| ==> seen[order[k]] == Chapter(Dedup(matches)[k])
  {
    seen := map[];
    order := [];
    ghost var paths: seq<String> := [];
    ghost var seenPaths: set<String> := {};
    assert matches[0..] == matches;
    for i := 0 to |matches|
      invariant Indexed(matches, i, seen, order, paths, seenPaths)
    {
      var relative := matches[i];
      var fullUrl := BaseDomain + relative;
      IndexStep(matches, i, seen, order, paths, seenPaths);
      if fullUrl !in seen {
        seen := seen[fullUrl := Chapter(relative)];
        order := order + [fullUrl];
        paths := paths + [relative];
        seenPaths := seenPaths + {relative};
      }
    }
    assert matches[|matches|..] == [];
    assert Dedup(matches) == paths;
  }

  /** `extract_chapter_links`, given the `CHAPTER_PATTERN` matches of a page in order. */
  method ExtractChapterLinks(matches: seq<String>) returns (links: seq<Link>)
    ensures links == LinksOf(SortedChapters(matches))
  {
    var seen, order := IndexChapters(matches);
    var values := seq(|order|, k requires 0 <= k < |order| => seen[order[k]]);
    ValuesInOrder(values, seen, order, Dedup(matches));
    var chapters := SortBy(values, ChapterOrder, KeyLe);
    links := LinksOf(chapters);
  }

  /** The dict's values, read in key-insertion order, are the entries of the
      paths in that order. */
  lemma ValuesInOrder(values: seq<Chapter>, seen: map<String, Chapter>, order: seq<String>, paths: seq<String>)
    requires |values| == |order| == |paths|
    requires forall k :: 0 <= k < |order| ==> order[k] in seen && values[k] == seen[order[k]]
    requires forall k :: 0 <= k < |order| ==> seen[order[k]] == Chapter(paths[k])
    ensures values == ChaptersOf(paths)
  {
    var cs := ChaptersOf(paths);
    forall k | 0 <= k < |values| ensures values[k] == cs[k] {
      assert cs[k].path == paths[k];
    }
  }

  /** A full URL is already a key exactly when its path was already seen. */
  lemma KeyedByFullUrl(order: seq<String>, paths: seq<String>, relative: String)
    requires |order| == |paths|
    requires forall k :: 0 <= k < |order| ==> order[k] == BaseDomain + paths[k]
    ensures BaseDomain + relative in order <==> relative in paths
  {
    if BaseDomain + relative in order {
      var k :| 0 <= k < |order| && order[k] == BaseDomain + relative;
      CancelPrefix(BaseDomain, paths[k], relative);
    }
  }

  lemma DistinctChapters(paths: seq<String>)
    requires Distinct(paths)
    ensures Distinct(ChaptersOf(paths))
  {
    var cs := ChaptersOf(paths);
    assert forall i :: 0 <= i < |cs| ==> cs[i].path == paths[i];
  }

  /** A permutation of a duplicate-free sequence is duplicate-free. */
  lemma DistinctPermutation<T>(s: seq<T>, r: seq<T>)
    requires Distinct(s) && multiset(r) == multiset(s)
    ensures Distinct(r)
  {
    forall x ensures multiset(s)[x] <= 1 {
      DistinctCount(s, x);
    }
    forall i, j | 0 <= i < j < |r| ensures r[i] != r[j] {
      if r[i] == r[j] {
        TwoOccurrences(r, i, j);
      }
    }
  }

  lemma TwoOccurrences<T>(r: seq<T>, i: nat, j: nat)
    requires i < j < |r| && r[i] == r[j]
    ensures multiset(r)[r[i]] >= 2
  {
    assert r == r[..j] + r[j..];
    assert r[i] in multiset(r[..j]);
    assert r[j..][0] == r[j];
    assert r[j] in multiset(r[j..]);
  }

  lemma {:induction false} DistinctCount<T>(s: seq<T>, x: T)
    requires Distinct(s)
    ensures multiset(s)[x] <= 1
  {
    if s != [] {
      DistinctCount(s[1..], x);
      assert s == [s[0]] + s[1..];
      if s[0] == x {
        assert x !in s[1..];
      }
    }
  }

  /** No URL is listed twice. */
  lemma ChapterLinksDistinct(matches: seq<String>)
    ensures Distinct(SortedChapters(matches))
    ensures var cs := SortedChapters(matches);
      forall i, j :: 0 <= i < j < |cs| ==> cs[i].Url() != cs[j].Url()
  {
    var cs := SortedChapters(matches);
    DedupSpec(matches);
    DistinctChapters(Dedup(matches));
    SortByPermutes(SeenChapters(matches), ChapterOrder, KeyLe);
    DistinctPermutation(SeenChapters(matches), cs);
    forall i, j | 0 <= i < j < |cs| ensures cs[i].Url() != cs[j].Url() {
      if cs[i].Url() == cs[j].Url() {
        CancelPrefix(BaseDomain, cs[i].path, cs[j].path);
      }
    }
  }

  /** The chapters listed are exactly those of the matched paths. */
  lemma ChapterLinksCover(matches: seq<String>)
    ensures forall c :: c in SortedChapters(matches) <==> c.path in matches
  {
    var cs := SortedChapters(matches);
    var seenList := SeenChapters(matches);
    DedupSpec(matches);
    SortByPermutes(seenList, ChapterOrder, KeyLe);
    forall c ensures c in cs <==> c.path in matches {
      calc {
        c in cs;
        c in multiset(cs);
        c in multiset(seenList);
        c in seenList;
        c.path in Dedup(matches);
      }
    }
  }

  /** The list is ordered by chapter key, and chapters with equal keys keep the
      order in which they were first seen. */
  lemma ChapterLinksOrdered(matches: seq<String>)
    ensures SortedBy(SortedChapters(matches), ChapterOrder, KeyLe)
    ensures StableWrt(SortedChapters(matches), SeenChapters(matches), ChapterOrder, KeyLe)
  {
    DedupSpec(matches);
    DistinctChapters(Dedup(matches));
    KeyLeTotalPreorder();
    SortByIsSorted(SeenChapters(matches), ChapterOrder, KeyLe);
    SortByIsStable(SeenChapters(matches), ChapterOrder, KeyLe);
  }

  // ---------------------------------------------------------------------
  // extract_image_urls

  /** `extract_image_urls`, given the `IMAGE_PATTERN` matches of a page in order. */
  method ExtractImageUrls(matches: seq<String>) returns (ordered: seq<String>)
    ensures ordered == Dedup(matches)
  {
    var seen: set<String> := {};
    ordered := [];
    for i := 0 to |matches|
      invariant seen == set u | u in ordered
      invariant Dedup(matches) == ordered + DedupFrom(matches[i..], seen)
    {
      var url := matches[i];
      DedupFromStep(matches, i, seen);
      if url !in seen {
        seen := seen + {url};
        ordered := ordered + [url];
      }
    }
    assert matches[|matches|..] == [];
  }

  // ---------------------------------------------------------------------
  // download_file

  /** `download_file`: attempts 1..retries; a success returns at once, a caught
      error (`ClientError`, timeout) sleeps `attempt * 2` seconds unless it was
      the last attempt, after which the call gives up; any other error escapes. */
  method DownloadFile(script: Script, retries: int) returns (outcome: Outcome, requests: nat, sleeps: seq<nat>)
    ensures Run(outcome, requests) == Retry(script, retries)
    ensures |sleeps| == if requests == 0 then 0 else requests - 1
    ensures forall i :: 0 <= i < |sleeps| ==> sleeps[i] == 2 * (i + 1)
  {
    requests := 0;
    sleeps := [];
    var attempt := 1;
    while attempt <= retries
      invariant 1 <= attempt
      invariant attempt <= retries || attempt == 1
      invariant requests == attempt - 1
      invariant |sleeps| == attempt - 1
      invariant forall i :: 0 <= i < |sleeps| ==> sleeps[i] == 2 * (i + 1)
      invariant FirstDecisive(script, attempt, retries) == FirstDecisive(script, 1, retries)
      decreases retries - attempt
    {
      requests := requests + 1;
      match script(attempt)
      case Fetched =>
        outcome := Saved;
        return;
      case Fatal =>
        outcome := Raised;
        return;
      case Transient =>
        if attempt == retries {
          outcome := GaveUp;
          return;
        }
        sleeps := sleeps + [2 * attempt];
      attempt := attempt + 1;
    }
    outcome := GaveUp;
  }

  // ---------------------------------------------------------------------
  // download_images

  /** The last component of a POSIX path (`PurePosixPath(p).name`): empty and "."
      components do not count. */
  function PathName(p: String): String {
    LastProperComponent(SplitOn(p, '/'))
  }

  function LastProperComponent(parts: seq<String>): (r: String)
    ensures '/' !in r || exists i :: 0 <= i < |parts| && parts[i] == r
  {
    if parts == [] then []
    else
      var last := parts[|parts| - 1];
      if last == [] || last == "." then LastProperComponent(parts[..|parts| - 1]) else last
  }

  /** `PurePath.suffix`: from the last "." of the name, provided that dot is neither
      the first nor the last character. */
  function Suffix(name: String): (r: String)
    ensures r == [] || (r[0] == '.' && |r| >= 2 && EndsWith(name, r))
  {
    var i := LastIndexOf(name, '.');
    if 0 < i < |name| - 1 then name[i..] else []
  }

  /** The extension an image URL is saved under: the lower-cased suffix of the URL
      without its query, or ".jpg" when that is not an allowed extension. */
  function ImageExtension(url: String): String {
    AllowedOrJpg(Lower(Suffix(PathName(BeforeFirst(url, '?')))))
  }

  /** The query does not influence the extension. */
  lemma ImageExtensionIgnoresQuery(path: String, query: String)
    requires '?' !in path
    ensures ImageExtension(path + "?" + query) == ImageExtension(path)
  {
    BeforeFirstAppend(path, '?', query);
    BeforeFirstNone(path, '?');
  }

  /** `episode_{NNN}_{III}{ext}` for the image at 0-based `index`. */
  function ImageName(episode: nat, index: nat, url: String): String {
    PaddedImageName(episode, index + 1, ImageExtension(url))
  }

  /** Distinct image positions get distinct file names. */
  lemma ImageNameInjective(episode: nat, i: nat, j: nat, u: String, v: String)
    requires ImageName(episode, i, u) == ImageName(episode, j, v)
    ensures i == j
  {
    PaddedImageNameInjective(episode, i + 1, j + 1, ImageExtension(u), ImageExtension(v));
  }

  /** The slot each worker fills: the file name if its download was saved. */
  function Slot(episode: nat, index: nat, url: String, script: Script): Option<String> {
    if Retry(script, 3).outcome == Saved then Some(ImageName(episode, index, url)) else None
  }

  /** Every worker's slot after the workers have run. */
  function Slots(urls: seq<String>, episode: nat, net: nat -> Script): seq<Option<String>> {
    seq(|urls|, i requires 0 <= i < |urls| => Slot(episode, i, urls[i], net(i)))
  }

  /** The names of the filled slots, in index order (`[name for name in results if name]`). */
  function Present(results: seq<Option<String>>): (names: seq<String>)
    ensures |names| <= |results|
  {
    if results == [] then []
    else (if results[0].Some? then [results[0].value] else []) + Present(results[1..])
  }

  /** How a batch of concurrent downloads ends: the list of saved names, or an
      exception from one of the workers escaping `gather`. */
  datatype Batch = Finished(names: seq<String>) | Aborted

  /** The `worker` of `download_images`: downloads the image at `index` with the
      default three attempts and, when it was saved, writes its file name into
      the worker's own slot and no other. */
  method Worker(results: array<Option<String>>, episode: nat, index: nat, url: String, script: Script)
    returns (raised: bool)
    requires index < results.Length
    modifies results
    ensures raised <==> Retry(script, 3).outcome == Raised
    ensures forall k :: 0 <= k < results.Length && k != index ==> results[k] == old(results[k])
    ensures Slot(episode, index, url, script).Some? ==> results[index] == Slot(episode, index, url, script)
    ensures Slot(episode, index, url, script).None? ==> results[index] == old(results[index])
  {
    var outcome, _, _ := DownloadFile(script, 3);
    raised := outcome == Raised;
    if outcome == Saved {
      results[index] := Some(ImageName(episode, index, url));
    }
  }

  /** `download_images`: one worker per image, each writing only its own slot of
      a list of `None`s; the saved names are then read off in index order. Worker
      `i`'s requests follow `net(i)`. */
  method DownloadImages(urls: seq<String>, episode: nat, net: nat -> Script) returns (r: Batch)
    ensures r.Aborted? <==> exists i :: 0 <= i < |urls| && Retry(net(i), 3).outcome == Raised
    ensures r.Finished? ==> r.names == Present(Slots(urls, episode, net))
  {
    var results := new Option<String>[|urls|](_ => None);
    for i := 0 to |urls|
      invariant forall k :: 0 <= k < i ==> Retry(net(k), 3).outcome != Raised
      invariant forall k :: 0 <= k < i ==> results[k] == Slot(episode, k, urls[k], net(k))
      invariant forall k :: i <= k < |urls| ==> results[k].None?
    {
      var raised := Worker(results, episode, i, urls[i], net(i));
      if raised {
        return Aborted;
      }
    }
    SlotsFilled(results[..], urls, episode, net);
    r := Finished(Present(results[..]));
  }

  /** A list holding every worker's slot is the list of slots. */
  lemma SlotsFilled(results: seq<Option<String>>, urls: seq<String>, episode: nat, net: nat -> Script)
    requires |results| == |urls|
    requires forall k :: 0 <= k < |urls| ==> results[k] == Slot(episode, k, urls[k], net(k))
    ensures results == Slots(urls, episode, net)
  {
  }

  /** The saved names are a sub-list of the slots: at most one per URL, none twice,
      each the name of one of the images. */
  lemma DownloadedNamesSpec(urls: seq<String>, episode: nat, net: nat -> Script)
    ensures var names := Present(Slots(urls, episode, net));
      && |names| <= |urls|
      && Distinct(names)
      && (forall n :: n in names ==> exists i :: 0 <= i < |urls| && Retry(net(i), 3).outcome == Saved && n == ImageName(episode, i, urls[i]))
  {
    var slots := Slots(urls, episode, net);
    forall i, j | 0 <= i < j < |slots| && slots[i].Some? && slots[j].Some?
      ensures slots[i].value != slots[j].value
    {
      assert slots[i] == Slot(episode, i, urls[i], net(i));
      assert slots[j] == Slot(episode, j, urls[j], net(j));
      if slots[i].value == slots[j].value {
        ImageNameInjective(episode, i, j, urls[i], urls[j]);
      }
    }
    PresentSpec(slots);
    forall n | n in Present(slots)
      ensures exists i :: 0 <= i < |urls| && Retry(net(i), 3).outcome == Saved && n == ImageName(episode, i, urls[i])
    {
      var i :| 0 <= i < |slots| && slots[i] == Some(n);
      assert slots[i] == Slot(episode, i, urls[i], net(i));
    }
  }

  /** Every image whose download was saved is listed. */
  lemma DownloadedComplete(urls: seq<String>, episode: nat, net: nat -> Script, i: nat)
    requires i < |urls| && Retry(net(i), 3).outcome == Saved
    ensures ImageName(episode, i, urls[i]) in Present(Slots(urls, episode, net))
  {
    var slots := Slots(urls, episode, net);
    assert slots[i] == Slot(episode, i, urls[i], net(i));
    PresentComplete(slots, i);
  }

  /** The names are listed in the order of their images: of two listed names,
      the earlier belongs to a saved image with a smaller index. */
  lemma DownloadedInOrder(urls: seq<String>, episode: nat, net: nat -> Script, k: nat, l: nat)
    returns (p: nat, q: nat)
    requires k < l < |Present(Slots(urls, episode, net))|
    ensures p < q < |urls|
    ensures Retry(net(p), 3).outcome == Saved && Retry(net(q), 3).outcome == Saved
    ensures Present(Slots(urls, episode, net))[k] == ImageName(episode, p, urls[p])
    ensures Present(Slots(urls, episode, net))[l] == ImageName(episode, q, urls[q])
  {
    var slots := Slots(urls, episode, net);
    p, q := PresentOrder(slots, k, l);
    assert slots[p] == Slot(episode, p, urls[p], net(p));
    assert slots[q] == Slot(episode, q, urls[q], net(q));
  }

  /** A filled slot's value is listed. */
  lemma {:induction false} PresentComplete(slots: seq<Option<String>>, i: nat)
    requires i < |slots| && slots[i].Some?
    ensures slots[i].value in Present(slots)
  {
    if i > 0 {
      PresentComplete(slots[1..], i - 1);
    }
  }

  /** Where a listed value comes from. */
  lemma {:induction false} PresentAt(slots: seq<Option<String>>, k: nat) returns (p: nat)
    requires k < |Present(slots)|
    ensures p < |slots| && slots[p] == Some(Present(slots)[k])
  {
    if slots[0].Some? && k == 0 {
      p := 0;
    } else {
      var p' := PresentAt(slots[1..], if slots[0].Some? then k - 1 else k);
      p := p' + 1;
    }
  }

  /** Listed values keep the order of their slots. */
  lemma {:induction false} PresentOrder(slots: seq<Option<String>>, k: nat, l: nat) returns (p: nat, q: nat)
    requires k < l < |Present(slots)|
    ensures p < q < |slots|
    ensures slots[p] == Some(Present(slots)[k]) && slots[q] == Some(Present(slots)[l])
  {
    if slots[0].Some? && k == 0 {
      var q' := PresentAt(slots[1..], l - 1);
      p, q := 0, q' + 1;
    } else {
      var p', q' := PresentOrder(slots[1..], if slots[0].Some? then k - 1 else k, if slots[0].Some? then l - 1 else l);
      p, q := p' + 1, q' + 1;
    }
  }

  /** Reading off the filled slots keeps values that were distinct distinct, and
      invents none. */
  lemma {:induction false} PresentSpec(slots: seq<Option<String>>)
    requires forall i, j :: 0 <= i < j < |slots| && slots[i].Some? && slots[j].Some? ==>
      slots[i].value != slots[j].value
    ensures Distinct(Present(slots))
    ensures forall n :: n in Present(slots) ==> Some(n) in slots
  {
    if slots != [] {
      PresentSpec(slots[1..]);
    }
  }

  // ---------------------------------------------------------------------
  // download_thumbnail

  /** The thumbnail URL made absolute: protocol-relative URLs get "https:", and
      site-relative paths get the base domain. */
  function NormalizeThumbnailUrl(url: String): (r: String)
    ensures EndsWith(r, url)
    ensures !StartsWith(url, "/") ==> r == url
    ensures StartsWith(url, "/") ==> !StartsWith(r, "/")
    ensures StartsWith(url, "/") ==> StartsWith(r, "https://")
    ensures StartsWith(url, "//") ==> |r| == |url| + |"https:"|
    ensures StartsWith(url, "/") && !StartsWith(url, "//") ==> StartsWith(r, BaseDomain + "/")
  {
    if StartsWith(url, "//") then "https:" + url
    else if StartsWith(url, "/") then
      assert (BaseDomain + url)[0] == 'h';
      BaseDomain + url
    else url
  }

  /** Normalising twice changes nothing more. */
  lemma NormalizeThumbnailIdempotent(url: String)
    ensures NormalizeThumbnailUrl(NormalizeThumbnailUrl(url)) == NormalizeThumbnailUrl(url)
  {
  }

  /** `download_thumbnail`: no URL means no thumbnail; otherwise the normalised URL
      is downloaded to "thumbnail.jpg", whose name is returned if it was saved. */
  method DownloadThumbnail(url: Option<String>, script: Script) returns (r: Fallible<String>, fetched: Option<String>)
    ensures url.None? || url.value == [] ==> r == Returned("") && fetched.None?
    ensures url.Some? && url.value != [] ==>
      fetched == Some(NormalizeThumbnailUrl(url.value))
      && r == match Retry(script, 3).outcome
              case Saved => Returned("thumbnail.jpg")
              case GaveUp => Returned("")
              case Raised => Threw
  {
    if url.None? || url.value == [] {
      return Returned(""), None;
    }
    var full := NormalizeThumbnailUrl(url.value);
    fetched := Some(full);
    var outcome, _, _ := DownloadFile(script, 3);
    r := match outcome
      case Saved => Returned("thumbnail.jpg")
      case GaveUp => Returned("")
      case Raised => Threw;
  }
}
