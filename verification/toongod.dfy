/** The deterministic rules of the toongod scraper: the comic directory name,
    the selector helpers that read text and attributes from the page, episode
    link and image URL collection, the download retry loop, and the image names
    and record of one episode. The browser is not modelled: for each CSS
    selector the model receives what `find_element(s)` would have produced. */
module Toongod {
  import opened Wrappers
  import opened Seqs
  import opened Text
  import opened Fetch
  import opened Naming

  const DefaultName: String := "toongod_comic"

  // ---------------------------------------------------------------------
  // sanitize_filename

  /** `[\\s\\-]`: whitespace or a hyphen. */
  predicate IsGap(c: char) { IsPySpace(c) || c == '-' }

  /** `[a-zA-Z0-9 _\\-]`: what the second substitution keeps. */
  predicate IsNameChar(c: char) { IsAsciiAlnum(c) || c == ' ' || c == '_' || c == '-' }

  /** ASCII letters, digits and "_": the characters that carry a name. */
  predicate IsWordChar(c: char) { IsAsciiAlnum(c) || c == '_' }

  /** `sanitize_filename`: strip, turn every run of whitespace and hyphens into
      one space, drop every character outside `[a-zA-Z0-9 _-]`, strip again,
      and fall back to "toongod_comic" when nothing is left. */
  function SanitizeFilename(text: String): (r: String)
    ensures r != []
  {
    var safe := Strip(Filter(CollapseRuns(Strip(text), IsGap), IsNameChar));
    if safe == [] then DefaultName else safe
  }

  /** A directory name as the sanitiser leaves it: non-empty, made of ASCII
      letters, digits, "_" and spaces only (so no hyphen), and neither starting
      nor ending with a space. */
  ghost predicate IsCleanName(r: String) {
    && r != []
    && (forall i :: 0 <= i < |r| ==> IsWordChar(r[i]) || r[i] == ' ')
    && r[0] != ' ' && r[|r| - 1] != ' '
  }

  lemma SanitizeShape(text: String)
    ensures IsCleanName(SanitizeFilename(text))
  {
    var cleaned := Filter(CollapseRuns(Strip(text), IsGap), IsNameChar);
    CleanedChars(CollapseRuns(Strip(text), IsGap));
    StripClean(cleaned);
    if Strip(cleaned) == [] {
      DefaultNameClean();
    }
  }

  /** After the gaps became spaces, the kept characters are word characters and spaces. */
  lemma CleanedChars(spaced: String)
    requires forall i :: 0 <= i < |spaced| && IsGap(spaced[i]) ==> spaced[i] == ' '
    ensures forall i :: 0 <= i < |Filter(spaced, IsNameChar)| ==>
      IsWordChar(Filter(spaced, IsNameChar)[i]) || Filter(spaced, IsNameChar)[i] == ' '
  {
    var cleaned := Filter(spaced, IsNameChar);
    FilterMembers(spaced, IsNameChar);
    forall i | 0 <= i < |cleaned| ensures IsWordChar(cleaned[i]) || cleaned[i] == ' ' {
      assert cleaned[i] in spaced;
      var k :| 0 <= k < |spaced| && spaced[k] == cleaned[i];
    }
  }

  lemma StripClean(c: String)
    requires forall i :: 0 <= i < |c| ==> IsWordChar(c[i]) || c[i] == ' '
    ensures Strip(c) == [] || IsCleanName(Strip(c))
  {
    TrimByShape(c, IsPySpace);
    var off := LeadingCount(c, IsPySpace);
    SliceAll(c, off, off + |Strip(c)|, ch => IsWordChar(ch) || ch == ' ');
  }

  lemma DefaultNameClean()
    ensures IsCleanName(DefaultName)
  {
    assert forall i :: 0 <= i < |DefaultName| ==> IsLowerAscii(DefaultName[i]) || DefaultName[i] == '_';
  }

  /** The letters, digits and underscores of the title survive, all of them and
      in order; only when there are none is the result the fallback name. */
  lemma SanitizeContent(text: String)
    ensures Filter(text, IsWordChar) == [] ==> SanitizeFilename(text) == DefaultName
    ensures Filter(text, IsWordChar) != [] ==>
      Filter(SanitizeFilename(text), IsWordChar) == Filter(text, IsWordChar)
  {
    var safe := Strip(Filter(CollapseRuns(Strip(text), IsGap), IsNameChar));
    WordsSurvive(text);
    if safe != [] {
      SanitizeShape(text);
      assert IsWordChar(safe[0]);
    }
  }

  lemma WordsSurvive(text: String)
    ensures Filter(Strip(Filter(CollapseRuns(Strip(text), IsGap), IsNameChar)), IsWordChar) == Filter(text, IsWordChar)
  {
    var stripped := Strip(text);
    var spaced := CollapseRuns(stripped, IsGap);
    var cleaned := Filter(spaced, IsNameChar);
    WordClasses();
    StripThenFilter(cleaned, IsWordChar);
    FilterFilter(spaced, IsNameChar, IsWordChar);
    CollapseKeepsContent(stripped, IsGap);
    FilterAfterReject(spaced, IsGap, IsWordChar);
    FilterAfterReject(stripped, IsGap, IsWordChar);
    StripThenFilter(text, IsWordChar);
  }

  /** A word character is a name character, and neither whitespace nor a gap. */
  lemma WordClasses()
    ensures forall c :: IsWordChar(c) ==> IsNameChar(c) && !IsGap(c) && !IsPySpace(c)
  {
  }

  // ---------------------------------------------------------------------
  // get_first_text

  /** The first non-empty stripped text, in selector order, of what
      `find_element` found for each selector (`None` where it raised
      `NoSuchElementException`); "" when there is none. */
  function FirstText(found: seq<Option<String>>): String {
    if found == [] then []
    else if found[0].Some? && Strip(found[0].value) != [] then Strip(found[0].value)
    else FirstText(found[1..])
  }

  /** `get_first_text`. */
  method GetFirstText(found: seq<Option<String>>) returns (text: String)
    ensures text == FirstText(found)
  {
    assert found[0..] == found;
    for i := 0 to |found|
      invariant FirstText(found[i..]) == FirstText(found)
    {
      assert found[i..][1..] == found[i + 1..];
      if found[i].Some? {
        text := Strip(found[i].value);
        if text != [] {
          return;
        }
      }
    }
    assert found[|found|..] == [];
    text := [];
  }

  /** The text is the stripped text of selector `k`, the first selector that
      found a non-blank text, and "" when there is none (`k == |found|`). */
  lemma {:induction false} FirstTextAt(found: seq<Option<String>>) returns (k: nat)
    ensures k <= |found|
    ensures forall j :: 0 <= j < k ==> found[j].None? || Strip(found[j].value) == []
    ensures k < |found| ==> found[k].Some? && Strip(found[k].value) != [] && FirstText(found) == Strip(found[k].value)
    ensures k == |found| ==> FirstText(found) == []
  {
    if found == [] || (found[0].Some? && Strip(found[0].value) != []) {
      k := 0;
    } else {
      var rest := found[1..];
      var k' := FirstTextAt(rest);
      k := k' + 1;
      assert forall j :: 1 <= j < |found| ==> found[j] == rest[j - 1];
    }
  }

  /** The text returned is already stripped. */
  lemma {:induction false} FirstTextStripped(found: seq<Option<String>>)
    ensures Strip(FirstText(found)) == FirstText(found)
  {
    if found != [] {
      FirstTextStripped(found[1..]);
      if found[0].Some? {
        TrimIdempotent(found[0].value, IsPySpace);
      }
    }
  }

  // ---------------------------------------------------------------------
  // get_all_text

  /** The inner loop of `get_all_text` over one selector's elements: each
      stripped text that is non-empty and not yet collected is appended. */
  function Collect(texts: seq<String>, collected: seq<String>): seq<String> {
    if texts == [] then collected
    else
      var v := Strip(texts[0]);
      Collect(texts[1..], if v != [] && v !in collected then collected + [v] else collected)
  }

  /** The texts collected from the first selector whose elements yield any
      non-blank text. */
  function AllText(groups: seq<seq<String>>): seq<String> {
    if groups == [] then []
    else
      var c := Collect(groups[0], []);
      if c != [] then c else AllText(groups[1..])
  }

  /** `get_all_text`, given the element texts `find_elements` returned for each
      selector (an empty list where it raised). */
  method GetAllText(groups: seq<seq<String>>) returns (collected: seq<String>)
    ensures collected == AllText(groups)
  {
    collected := [];
    assert groups[0..] == groups;
    for i := 0 to |groups|
      invariant collected == []
      invariant AllText(groups[i..]) == AllText(groups)
    {
      assert groups[i..][1..] == groups[i + 1..];
      var elements := groups[i];
      assert elements[0..] == elements;
      for j := 0 to |elements|
        invariant Collect(elements[j..], collected) == Collect(elements, [])
      {
        assert elements[j..][1..] == elements[j + 1..];
        var value := Strip(elements[j]);
        if value != [] && value !in collected {
          collected := collected + [value];
        }
      }
      assert elements[|elements|..] == [];
      if collected != [] {
        return;
      }
    }
    assert groups[|groups|..] == [];
  }

  /** A selector's texts: the non-blank stripped texts of its elements. */
  ghost predicate Yields(texts: seq<String>, x: String) {
    x != [] && exists j :: 0 <= j < |texts| && Strip(texts[j]) == x
  }

  /** Collecting keeps what was collected in front and adds no value twice. */
  lemma {:induction false} CollectKeeps(texts: seq<String>, acc: seq<String>)
    ensures |Collect(texts, acc)| >= |acc| && Collect(texts, acc)[..|acc|] == acc
    ensures Distinct(acc) ==> Distinct(Collect(texts, acc))
  {
    if texts != [] {
      var v := Strip(texts[0]);
      var next := if v != [] && v !in acc then acc + [v] else acc;
      CollectKeeps(texts[1..], next);
      var r := Collect(texts, acc);
      assert r[..|acc|] == r[..|next|][..|acc|];
    }
  }

  /** Collecting adds exactly the non-blank stripped texts not collected yet. */
  lemma {:induction false} CollectMembers(texts: seq<String>, acc: seq<String>)
    ensures forall x :: x in Collect(texts, acc) <==> x in acc || Yields(texts, x)
  {
    if texts != [] {
      var v := Strip(texts[0]);
      var next := if v != [] && v !in acc then acc + [v] else acc;
      CollectMembers(texts[1..], next);
      var r := Collect(texts, acc);
      assert r == Collect(texts[1..], next);
      forall x ensures x in r <==> x in acc || Yields(texts, x) {
        if Yields(texts[1..], x) {
          var j :| 0 <= j < |texts[1..]| && Strip(texts[1..][j]) == x;
          assert Strip(texts[j + 1]) == x;
        }
        if Yields(texts, x) && x !in acc && x != v {
          var j :| 0 <= j < |texts| && Strip(texts[j]) == x;
          assert j > 0 && texts[1..][j - 1] == texts[j];
        }
      }
    }
  }

  /** Every selector's texts are blank. */
  ghost predicate AllBlank(groups: seq<seq<String>>) {
    forall i, x :: 0 <= i < |groups| ==> !Yields(groups[i], x)
  }

  /** The position of the first selector whose elements yield a non-blank text;
      `|groups|` when there is none. */
  function FirstYielding(groups: seq<seq<String>>): (k: nat)
    ensures k <= |groups|
  {
    if groups == [] || Collect(groups[0], []) != [] then 0 else 1 + FirstYielding(groups[1..])
  }

  lemma {:induction false} AllTextAt(groups: seq<seq<String>>)
    ensures FirstYielding(groups) < |groups| ==>
      AllText(groups) == Collect(groups[FirstYielding(groups)], []) && Collect(groups[FirstYielding(groups)], []) != []
    ensures FirstYielding(groups) == |groups| ==> AllText(groups) == []
    ensures forall i :: 0 <= i < FirstYielding(groups) ==> Collect(groups[i], []) == []
  {
    if groups != [] && Collect(groups[0], []) == [] {
      AllTextAt(groups[1..]);
      assert forall i :: 1 <= i < |groups| ==> groups[i] == groups[1..][i - 1];
    }
  }

  /** The list has no duplicates; it is empty exactly when every selector's texts
      are blank; otherwise it holds exactly the distinct non-blank texts of the
      first selector that has any, and nothing from any other selector. */
  lemma AllTextSpec(groups: seq<seq<String>>)
    ensures Distinct(AllText(groups))
    ensures AllText(groups) == [] <==> AllBlank(groups)
    ensures AllText(groups) != [] ==> exists k :: (0 <= k < |groups| && AllBlank(groups[..k])
      && forall x :: x in AllText(groups) <==> Yields(groups[k], x))
  {
    var k := FirstYielding(groups);
    AllTextAt(groups);
    forall i, x | 0 <= i < k ensures !Yields(groups[i], x) {
      CollectMembers(groups[i], []);
    }
    assert AllBlank(groups[..k]);
    if k < |groups| {
      CollectKeeps(groups[k], []);
      CollectMembers(groups[k], []);
      var c := Collect(groups[k], []);
      assert Yields(groups[k], c[0]);
    }
  }

  // ---------------------------------------------------------------------
  // get_first_attribute

  /** A usable attribute value: present and non-empty. */
  predicate Present(value: Option<String>) { value.Some? && value.value != [] }

  /** The first usable value among one selector's elements. */
  function FirstValue(values: seq<Option<String>>): Option<String> {
    if values == [] then None
    else if Present(values[0]) then values[0]
    else FirstValue(values[1..])
  }

  /** The first usable attribute value over all selectors, in selector order
      and then element order. */
  function FirstAttribute(groups: seq<seq<Option<String>>>): Option<String> {
    if groups == [] then None
    else if FirstValue(groups[0]).Some? then FirstValue(groups[0])
    else FirstAttribute(groups[1..])
  }

  /** `get_first_attribute`, given for each selector the values of `attribute`
      on the elements `find_elements` returned (`None` where an element lacks
      it; an empty list where the lookup raised). */
  method GetFirstAttribute(groups: seq<seq<Option<String>>>) returns (value: Option<String>)
    ensures value == FirstAttribute(groups)
  {
    assert groups[0..] == groups;
    for i := 0 to |groups|
      invariant FirstAttribute(groups[i..]) == FirstAttribute(groups)
    {
      assert groups[i..][1..] == groups[i + 1..];
      var elements := groups[i];
      assert elements[0..] == elements;
      for j := 0 to |elements|
        invariant FirstValue(elements[j..]) == FirstValue(elements)
      {
        assert elements[j..][1..] == elements[j + 1..];
        if Present(elements[j]) {
          return elements[j];
        }
      }
      assert elements[|elements|..] == [];
    }
    assert groups[|groups|..] == [];
    return None;
  }

  /** Within one selector: the value is that of element `j`, the first usable
      one, or there is none (`j == |values|`). */
  lemma {:induction false} FirstValueAt(values: seq<Option<String>>) returns (j: nat)
    ensures j <= |values|
    ensures forall m :: 0 <= m < j ==> !Present(values[m])
    ensures j < |values| ==> Present(values[j]) && FirstValue(values) == values[j]
    ensures j == |values| ==> FirstValue(values) == None
  {
    if values == [] || Present(values[0]) {
      j := 0;
    } else {
      var j' := FirstValueAt(values[1..]);
      j := j' + 1;
      assert forall m :: 1 <= m < |values| ==> values[m] == values[1..][m - 1];
    }
  }

  /** The value is that of element `j` of selector `i`, the first usable value
      in selector-then-element order; `None` (`i == |groups|`) only when no
      element of any selector has a usable value. */
  lemma {:induction false} FirstAttributeAt(groups: seq<seq<Option<String>>>) returns (i: nat, j: nat)
    ensures i <= |groups|
    ensures forall m, n :: 0 <= m < i && 0 <= n < |groups[m]| ==> !Present(groups[m][n])
    ensures i < |groups| ==> (j < |groups[i]| && Present(groups[i][j])
      && (forall n :: 0 <= n < j ==> !Present(groups[i][n]))
      && FirstAttribute(groups) == groups[i][j])
    ensures i == |groups| ==> FirstAttribute(groups) == None
  {
    if groups == [] {
      i, j := 0, 0;
    } else {
      j := FirstValueAt(groups[0]);
      if j < |groups[0]| {
        i := 0;
      } else {
        var i', _ := FirstAttributeAt(groups[1..]);
        i := i' + 1;
        assert forall m :: 1 <= m < |groups| ==> groups[m] == groups[1..][m - 1];
        if i < |groups| {
          j := FirstValueAt(groups[i]);
        }
      }
    }
  }

  // ---------------------------------------------------------------------
  // collect_episode_links

  /** A link element as the scraper reads it: its `href` and `title`
      attributes (absent or present) and its visible text. */
  datatype Anchor = Anchor(href: Option<String>, text: String, title: Option<String>)

  /** One element found by an episode selector. For a link selector the
      element is itself the link; for a container selector `anchor` is the
      container's first `a` (`None` when it has none). `dates` holds, for each
      release-date selector in turn, the text of the element it matched inside
      the row (`None` where `find_element` raised). */
  datatype Row = Row(anchor: Option<Anchor>, dates: seq<Option<String>>)

  /** One entry of the episode list: its URL, label and release date. */
  datatype Episode = Episode(url: String, caption: String, date: String)

  /** The row's link target; empty when there is no link or no `href`, which
      the scraper skips alike. */
  function Href(row: Row): String {
    if row.anchor.Some? && row.anchor.value.href.Some? then row.anchor.value.href.value else []
  }

  /** The label: the link's stripped text, or else its stripped `title`. */
  function LabelOf(a: Anchor): (r: String)
    ensures r == [] ==> Strip(a.text) == []
    ensures Strip(a.text) != [] ==> r == Strip(a.text)
  {
    var text := Strip(a.text);
    if text != [] then text else Strip(if a.title.Some? then a.title.value else [])
  }

  /** The release date: the stripped text of the first date selector that
      matched, even when that text is blank; "" when none matched. */
  function DateOf(dates: seq<Option<String>>): String {
    if dates == [] then []
    else if dates[0].Some? then Strip(dates[0].value)
    else DateOf(dates[1..])
  }

  /** The inner date loop, which stops at the first selector that matched. */
  method FindDate(dates: seq<Option<String>>) returns (date: String)
    ensures date == DateOf(dates)
  {
    date := [];
    assert dates[0..] == dates;
    for d := 0 to |dates|
      invariant DateOf(dates[d..]) == DateOf(dates)
    {
      assert dates[d..][1..] == dates[d + 1..];
      if dates[d].Some? {
        return Strip(dates[d].value);
      }
    }
    assert dates[|dates|..] == [];
  }

  /** The dictionary appended for a row that is taken. */
  function EpisodeOf(row: Row): (e: Episode)
    requires Href(row) != []
    ensures e.url == Href(row)
  {
    Episode(Href(row), LabelOf(row.anchor.value), DateOf(row.dates))
  }

  /** The rows of one selector, in page order, against the URLs already seen:
      a row is taken when it has a non-empty `href` not seen before. */
  function Scan(rows: seq<Row>, seen: set<String>): seq<Episode> {
    if rows == [] then []
    else if Href(rows[0]) == [] || Href(rows[0]) in seen then Scan(rows[1..], seen)
    else [EpisodeOf(rows[0])] + Scan(rows[1..], seen + {Href(rows[0])})
  }

  /** The selectors in order; the first one that yields an episode ends the
      search. Nothing is seen before a selector that is reached, since every
      earlier selector took nothing. */
  function FirstScan(groups: seq<seq<Row>>): seq<Episode> {
    if groups == [] then []
    else if Scan(groups[0], {}) != [] then Scan(groups[0], {})
    else FirstScan(groups[1..])
  }

  /** `collect_episode_links`: the link selectors, then, only when they
      yielded nothing, the container selectors; the list is returned reversed. */
  function EpisodeLinks(links: seq<seq<Row>>, containers: seq<seq<Row>>): seq<Episode> {
    Reverse(if FirstScan(links) != [] then FirstScan(links) else FirstScan(containers))
  }

  /** One phase of `collect_episode_links` (the link selectors or the
      container selectors), with its `seen_urls` set. */
  method ScanGroups(groups: seq<seq<Row>>) returns (episodes: seq<Episode>)
    ensures episodes == FirstScan(groups)
  {
    episodes := [];
    var seen: set<String> := {};
    assert groups[0..] == groups;
    for i := 0 to |groups|
      invariant episodes == [] && seen == {}
      invariant FirstScan(groups[i..]) == FirstScan(groups)
    {
      assert groups[i..][1..] == groups[i + 1..];
      var rows := groups[i];
      assert rows[0..] == rows;
      for j := 0 to |rows|
        invariant episodes + Scan(rows[j..], seen) == Scan(rows, {})
        invariant episodes == [] ==> seen == {}
      {
        assert rows[j..][1..] == rows[j + 1..];
        var anchor := rows[j].anchor;
        if anchor.None? {
          continue;
        }
        var href := anchor.value.href;
        if href.None? || href.value == [] || href.value in seen {
          continue;
        }
        var date := FindDate(rows[j].dates);
        seen := seen + {href.value};
        episodes := episodes + [Episode(href.value, LabelOf(anchor.value), date)];
      }
      assert rows[|rows|..] == [];
      if episodes != [] {
        return;
      }
    }
    assert groups[|groups|..] == [];
  }

  method CollectEpisodeLinks(links: seq<seq<Row>>, containers: seq<seq<Row>>) returns (episodes: seq<Episode>)
    ensures episodes == EpisodeLinks(links, containers)
  {
    episodes := ScanGroups(links);
    if episodes == [] {
      episodes := ScanGroups(containers);
    }
    episodes := Reverse(episodes);
  }

  /** No row of a selector has a link target. */
  ghost predicate NoTarget(rows: seq<Row>) {
    forall j :: 0 <= j < |rows| ==> Href(rows[j]) == []
  }

  /** Every entry of a scan has a non-empty URL not seen before, and no URL
      is taken twice. */
  lemma {:induction false} ScanUrls(rows: seq<Row>, seen: set<String>)
    ensures forall k :: 0 <= k < |Scan(rows, seen)| ==>
      Scan(rows, seen)[k].url != [] && Scan(rows, seen)[k].url !in seen
    ensures forall k, l :: 0 <= k < l < |Scan(rows, seen)| ==> Scan(rows, seen)[k].url != Scan(rows, seen)[l].url
  {
    if rows != [] {
      var u := Href(rows[0]);
      if u == [] || u in seen {
        ScanUrls(rows[1..], seen);
      } else {
        var rest := Scan(rows[1..], seen + {u});
        ScanUrls(rows[1..], seen + {u});
        assert Scan(rows, seen) == [EpisodeOf(rows[0])] + rest;
      }
    }
  }

  /** Entry `k` of a scan has a non-empty URL not seen before. */
  lemma {:induction false} ScanFresh(rows: seq<Row>, seen: set<String>, k: nat)
    requires k < |Scan(rows, seen)|
    ensures Scan(rows, seen)[k].url != [] && Scan(rows, seen)[k].url !in seen
  {
    var u := Href(rows[0]);
    if u == [] || u in seen {
      ScanFresh(rows[1..], seen, k);
    } else if k > 0 {
      ScanFresh(rows[1..], seen + {u}, k - 1);
    }
  }

  /** Every non-empty link target not seen before is taken: entry `k` has it. */
  lemma {:induction false} ScanTakes(rows: seq<Row>, seen: set<String>, j: nat) returns (k: nat)
    requires j < |rows| && Href(rows[j]) != [] && Href(rows[j]) !in seen
    ensures k < |Scan(rows, seen)| && Scan(rows, seen)[k].url == Href(rows[j])
  {
    var u := Href(rows[0]);
    if j == 0 {
      k := 0;
    } else if u == [] || u in seen {
      TailIndex(rows, j - 1);
      k := ScanTakes(rows[1..], seen, j - 1);
    } else if Href(rows[j]) == u {
      k := 0;
    } else {
      TailIndex(rows, j - 1);
      var k' := ScanTakes(rows[1..], seen + {u}, j - 1);
      k := k' + 1;
    }
  }

  /** The rows a scan takes, in order; entry `k` of the scan is made from
      row `k` of these. */
  function Taken(rows: seq<Row>, seen: set<String>): seq<Row> {
    if rows == [] then []
    else if Href(rows[0]) == [] || Href(rows[0]) in seen then Taken(rows[1..], seen)
    else [rows[0]] + Taken(rows[1..], seen + {Href(rows[0])})
  }

  /** Entry `k` of a scan is the episode of the `k`-th row taken. */
  lemma {:induction false} ScanTakenAt(rows: seq<Row>, seen: set<String>, k: nat)
    requires k < |Scan(rows, seen)|
    ensures k < |Taken(rows, seen)| && Href(Taken(rows, seen)[k]) != []
    ensures Scan(rows, seen)[k] == EpisodeOf(Taken(rows, seen)[k])
  {
    var u := Href(rows[0]);
    if u == [] || u in seen {
      ScanTakenAt(rows[1..], seen, k);
    } else if k > 0 {
      ScanTakenAt(rows[1..], seen + {u}, k - 1);
      ConsIndex(EpisodeOf(rows[0]), Scan(rows[1..], seen + {u}), k);
      ConsIndex(rows[0], Taken(rows[1..], seen + {u}), k);
    }
  }

  /** The `k`-th row taken is the first row carrying its link target, which
      was not seen before. */
  lemma {:induction false} TakenOrigin(rows: seq<Row>, seen: set<String>, k: nat) returns (j: nat)
    requires k < |Taken(rows, seen)|
    ensures j < |rows| && Taken(rows, seen)[k] == rows[j]
    ensures Href(rows[j]) != [] && Href(rows[j]) !in seen
    ensures forall m :: 0 <= m < j ==> Href(rows[m]) != Href(rows[j])
  {
    var u := Href(rows[0]);
    if u == [] || u in seen {
      var j' := TakenOrigin(rows[1..], seen, k);
      j := j' + 1;
      TailIndex(rows, j');
      OriginShift(rows, j);
    } else if k == 0 {
      j := 0;
    } else {
      ConsIndex(rows[0], Taken(rows[1..], seen + {u}), k);
      var j' := TakenOrigin(rows[1..], seen + {u}, k - 1);
      j := j' + 1;
      TailIndex(rows, j');
      NotAdded(Href(rows[j]), seen, u);
      OriginShift(rows, j);
    }
  }

  /** Where an entry comes from: the first row carrying its URL, whose label
      and date it holds. */
  lemma ScanOrigin(rows: seq<Row>, seen: set<String>, k: nat) returns (j: nat)
    requires k < |Scan(rows, seen)|
    ensures j < |rows| && Href(rows[j]) != [] && Scan(rows, seen)[k] == EpisodeOf(rows[j])
    ensures forall m :: 0 <= m < j ==> Href(rows[m]) != Href(rows[j])
  {
    ScanTakenAt(rows, seen, k);
    j := TakenOrigin(rows, seen, k);
  }

  /** A URL outside `seen + {u}` is not `u`. */
  lemma NotAdded(url: String, seen: set<String>, u: String)
    requires url !in seen + {u}
    ensures url != u
  {
  }

  /** Re-indexing the "no earlier row" fact of the tail onto the whole. */
  lemma OriginShift(rows: seq<Row>, j: nat)
    requires 0 < j < |rows| && Href(rows[j]) != Href(rows[0])
    requires forall m :: 0 <= m < j - 1 ==> Href(rows[1..][m]) != Href(rows[1..][j - 1])
    ensures forall m :: 0 <= m < j ==> Href(rows[m]) != Href(rows[j])
  {
    forall m | 0 < m < j ensures Href(rows[m]) != Href(rows[j]) {
      TailIndex(rows, m - 1);
    }
  }

  /** A selector takes nothing exactly when none of its rows has a link target. */
  lemma ScanEmptyIff(rows: seq<Row>)
    ensures Scan(rows, {}) == [] <==> NoTarget(rows)
  {
    if !NoTarget(rows) {
      var j :| 0 <= j < |rows| && Href(rows[j]) != [];
      var k := ScanTakes(rows, {}, j);
    } else if Scan(rows, {}) != [] {
      var j := ScanOrigin(rows, {}, 0);
    }
  }

  /** The search ends at selector `k`, the first whose scan takes something;
      `k == |groups|` when none does. */
  lemma {:induction false} FirstScanAt(groups: seq<seq<Row>>) returns (k: nat)
    ensures k <= |groups|
    ensures k < |groups| ==> FirstScan(groups) == Scan(groups[k], {}) != []
    ensures k == |groups| ==> FirstScan(groups) == []
    ensures forall i :: 0 <= i < k ==> Scan(groups[i], {}) == []
  {
    if groups == [] {
      k := 0;
    } else if Scan(groups[0], {}) != [] {
      k := 0;
    } else {
      var k' := FirstScanAt(groups[1..]);
      k := k' + 1;
      assert forall i :: 0 < i < |groups| ==> groups[i] == groups[1..][i - 1];
    }
  }

  /** The same in terms of the page: selector `k` is the first with a link
      target, and its scan is the result. */
  lemma FirstScanTarget(groups: seq<seq<Row>>) returns (k: nat)
    ensures k <= |groups|
    ensures k < |groups| ==> FirstScan(groups) == Scan(groups[k], {}) && !NoTarget(groups[k])
    ensures k == |groups| ==> FirstScan(groups) == []
    ensures forall i :: 0 <= i < k ==> NoTarget(groups[i])
  {
    k := FirstScanAt(groups);
    forall i | 0 <= i < k ensures NoTarget(groups[i]) {
      ScanEmptyIff(groups[i]);
    }
    if k < |groups| {
      ScanEmptyIff(groups[k]);
    }
  }

  /** When a link selector finds a link target, the container selectors are
      not consulted. */
  lemma LinksShadowContainers(links: seq<seq<Row>>, containers: seq<seq<Row>>, i: nat)
    requires i < |links| && !NoTarget(links[i])
    ensures FirstScan(links) != []
    ensures EpisodeLinks(links, containers) == Reverse(FirstScan(links))
  {
    var k := FirstScanAt(links);
    ScanEmptyIff(links[i]);
  }

  /** When no link selector finds a link target, the list comes from the
      container selectors. */
  lemma ContainersWhenNoLinks(links: seq<seq<Row>>, containers: seq<seq<Row>>)
    requires forall i :: 0 <= i < |links| ==> NoTarget(links[i])
    ensures EpisodeLinks(links, containers) == Reverse(FirstScan(containers))
  {
    var k := FirstScanAt(links);
    if k < |links| {
      ScanEmptyIff(links[k]);
    }
  }

  // ---------------------------------------------------------------------
  // extract_image_urls

  /** An image element, as the attributes it carries. */
  type Element = map<String, String>

  /** The attributes read for an image URL, in order of preference. */
  const ImageAttributes: seq<String> := ["data-src", "data-original", "data-lazy-src", "src"]

  /** The stripped value of an attribute, "" when the element lacks it. */
  function Candidate(e: Element, attr: String): String {
    Strip(if attr in e then e[attr] else [])
  }

  /** A URL worth keeping: non-empty and not an inline `data:image` URI. */
  predicate Usable(url: String) {
    url != [] && !StartsWith(url, "data:image")
  }

  /** The candidates of an element, one per attribute of `ImageAttributes`. */
  function Candidates(e: Element): (c: seq<String>)
    ensures |c| == |ImageAttributes|
  {
    seq(|ImageAttributes|, a requires 0 <= a < |ImageAttributes| => Candidate(e, ImageAttributes[a]))
  }

  /** The URL an element contributes: the first candidate that is usable and
      not seen yet (a seen value falls through to the next attribute); `None`
      when there is none. */
  function Pick(cands: seq<String>, seen: set<String>): Option<String> {
    if cands == [] then None
    else if Usable(cands[0]) && cands[0] !in seen then Some(cands[0])
    else Pick(cands[1..], seen)
  }

  /** The candidate lists of a selector's elements, in page order. */
  function Offers(elements: seq<Element>): (offers: seq<seq<String>>)
    ensures |offers| == |elements|
  {
    seq(|elements|, j requires 0 <= j < |elements| => Candidates(elements[j]))
  }

  /** The elements of one selector, as their candidate lists, against the URLs
      already seen. */
  function ScanImages(offers: seq<seq<String>>, seen: set<String>): seq<String> {
    if offers == [] then []
    else match Pick(offers[0], seen)
      case Some(url) => [url] + ScanImages(offers[1..], seen + {url})
      case None => ScanImages(offers[1..], seen)
  }

  /** One step of the element loop. */
  lemma ScanImagesStep(offers: seq<seq<String>>, j: nat, seen: set<String>)
    requires j < |offers|
    ensures ScanImages(offers[j..], seen) ==
      if Pick(offers[j], seen).Some? then [Pick(offers[j], seen).value] + ScanImages(offers[j + 1..], seen + {Pick(offers[j], seen).value})
      else ScanImages(offers[j + 1..], seen)
  {
    assert offers[j..][1..] == offers[j + 1..];
  }

  /** `extract_image_urls`: the first selector whose elements give a URL decides. */
  function ImageUrls(groups: seq<seq<Element>>): seq<String> {
    if groups == [] then []
    else if ScanImages(Offers(groups[0]), {}) != [] then ScanImages(Offers(groups[0]), {})
    else ImageUrls(groups[1..])
  }

  /** The loop over one element's attributes, which stops at the first URL it
      takes. */
  method PickUrl(element: Element, seen: set<String>) returns (picked: Option<String>)
    ensures picked == Pick(Candidates(element), seen)
  {
    ghost var cands := Candidates(element);
    assert cands[0..] == cands;
    for a := 0 to |ImageAttributes|
      invariant Pick(cands[a..], seen) == Pick(cands, seen)
    {
      assert cands[a..][1..] == cands[a + 1..];
      var url := Strip(if ImageAttributes[a] in element then element[ImageAttributes[a]] else []);
      if url != [] && !StartsWith(url, "data:image") {
        if url !in seen {
          return Some(url);
        }
      }
    }
    assert cands[|cands|..] == [];
    return None;
  }

  method ExtractImageUrls(groups: seq<seq<Element>>) returns (urls: seq<String>)
    ensures urls == ImageUrls(groups)
  {
    urls := [];
    assert groups[0..] == groups;
    for i := 0 to |groups|
      invariant urls == []
      invariant ImageUrls(groups[i..]) == ImageUrls(groups)
    {
      assert groups[i..][1..] == groups[i + 1..];
      urls := ScanSelector(groups[i]);
      if urls != [] {
        return;
      }
    }
    assert groups[|groups|..] == [];
  }

  /** The loop over the elements of one selector, sharing one `seen` set. */
  method ScanSelector(elements: seq<Element>) returns (urls: seq<String>)
    ensures urls == ScanImages(Offers(elements), {})
  {
    urls := [];
    var seen: set<String> := {};
    assert Offers(elements)[0..] == Offers(elements);
    for j := 0 to |elements|
      invariant urls + ScanImages(Offers(elements)[j..], seen) == ScanImages(Offers(elements), {})
    {
      ScanSelectorStep(elements, j, seen);
      var picked := PickUrl(elements[j], seen);
      if picked.Some? {
        AppendAssoc(urls, [picked.value], ScanImages(Offers(elements)[j + 1..], seen + {picked.value}));
        seen := seen + {picked.value};
        urls := urls + [picked.value];
      }
    }
    assert Offers(elements)[|elements|..] == [];
  }

  /** One step of the element loop, in terms of the element itself. */
  lemma ScanSelectorStep(elements: seq<Element>, j: nat, seen: set<String>)
    requires j < |elements|
    ensures ScanImages(Offers(elements)[j..], seen) ==
      if Pick(Candidates(elements[j]), seen).Some?
      then [Pick(Candidates(elements[j]), seen).value] +
        ScanImages(Offers(elements)[j + 1..], seen + {Pick(Candidates(elements[j]), seen).value})
      else ScanImages(Offers(elements)[j + 1..], seen)
  {
    ScanImagesStep(Offers(elements), j, seen);
  }

  /** What an element contributes: candidate `a`, the first usable one not
      seen yet; or nothing (`a == |cands|`), when every usable candidate was
      seen already. */
  lemma {:induction false} PickAt(cands: seq<String>, seen: set<String>) returns (a: nat)
    ensures a <= |cands|
    ensures forall b :: 0 <= b < a ==> !Usable(cands[b]) || cands[b] in seen
    ensures a < |cands| ==> Usable(cands[a]) && cands[a] !in seen && Pick(cands, seen) == Some(cands[a])
    ensures a == |cands| ==> Pick(cands, seen) == None
  {
    if cands == [] || (Usable(cands[0]) && cands[0] !in seen) {
      a := 0;
    } else {
      var a' := PickAt(cands[1..], seen);
      a := a' + 1;
      assert forall b :: 0 < b < |cands| ==> cands[b] == cands[1..][b - 1];
    }
  }

  /** Every URL collected is usable and new, and none is collected twice. */
  lemma {:induction false} ScanImagesUrls(offers: seq<seq<String>>, seen: set<String>)
    ensures forall k :: 0 <= k < |ScanImages(offers, seen)| ==>
      Usable(ScanImages(offers, seen)[k]) && ScanImages(offers, seen)[k] !in seen
    ensures forall k, l :: 0 <= k < l < |ScanImages(offers, seen)| ==>
      ScanImages(offers, seen)[k] != ScanImages(offers, seen)[l]
  {
    if offers != [] {
      var a := PickAt(offers[0], seen);
      match Pick(offers[0], seen)
      case Some(url) =>
        ScanImagesUrls(offers[1..], seen + {url});
        assert ScanImages(offers, seen) == [url] + ScanImages(offers[1..], seen + {url});
      case None =>
        ScanImagesUrls(offers[1..], seen);
    }
  }

  /** No element is passed over while it has a usable URL: every element with a
      usable candidate has one (candidate `b`) that was seen before or is
      collected. */
  lemma {:induction false} ScanImagesCover(offers: seq<seq<String>>, seen: set<String>, j: nat, a: nat)
    returns (b: nat)
    requires j < |offers| && a < |offers[j]| && Usable(offers[j][a])
    ensures b < |offers[j]| && Usable(offers[j][b])
    ensures offers[j][b] in seen || offers[j][b] in ScanImages(offers, seen)
  {
    var first := PickAt(offers[0], seen);
    if j == 0 {
      if first < |offers[0]| {
        b := first;
      } else {
        b := a;
      }
    } else {
      assert offers[1..][j - 1] == offers[j];
      match Pick(offers[0], seen)
      case Some(url) =>
        b := ScanImagesCover(offers[1..], seen + {url}, j - 1, a);
        assert ScanImages(offers, seen) == [url] + ScanImages(offers[1..], seen + {url});
      case None =>
        b := ScanImagesCover(offers[1..], seen, j - 1, a);
    }
  }

  /** Where a collected URL comes from: element `j`, whose pick it is against
      the URLs seen before it. */
  lemma {:induction false} ScanImagesOrigin(offers: seq<seq<String>>, seen: set<String>, k: nat)
    returns (j: nat, before: set<String>)
    requires k < |ScanImages(offers, seen)|
    ensures j < |offers| && seen <= before
    ensures Pick(offers[j], before) == Some(ScanImages(offers, seen)[k])
  {
    match Pick(offers[0], seen)
    case Some(url) =>
      if k == 0 {
        j, before := 0, seen;
      } else {
        var j', b' := ScanImagesOrigin(offers[1..], seen + {url}, k - 1);
        j, before := j' + 1, b';
        assert offers[1..][j'] == offers[j];
      }
    case None =>
      var j', b' := ScanImagesOrigin(offers[1..], seen, k);
      j, before := j' + 1, b';
      assert offers[1..][j'] == offers[j];
  }

  /** `extract_image_urls` as a whole: the result is the scan of the first
      selector whose elements give a URL, every earlier selector gives none, it
      is empty only when no selector gives one, and it holds no URL twice. */
  lemma {:induction false} ImageUrlsAt(groups: seq<seq<Element>>) returns (k: nat)
    ensures k <= |groups|
    ensures forall j :: 0 <= j < k ==> ScanImages(Offers(groups[j]), {}) == []
    ensures k < |groups| ==> ImageUrls(groups) == ScanImages(Offers(groups[k]), {}) != []
    ensures k == |groups| ==> ImageUrls(groups) == []
    ensures Distinct(ImageUrls(groups))
  {
    if groups == [] {
      k := 0;
    } else if ScanImages(Offers(groups[0]), {}) != [] {
      k := 0;
      ScanImagesUrls(Offers(groups[0]), {});
    } else {
      var k' := ImageUrlsAt(groups[1..]);
      k := k' + 1;
      assert forall j :: 0 < j < |groups| ==> groups[j] == groups[1..][j - 1];
    }
  }

  // ---------------------------------------------------------------------
  // download_file

  /** The request headers: a `Referer` exactly when a non-empty referer is given. */
  function Headers(referer: Option<String>): (h: map<String, String>)
    ensures "Referer" in h <==> referer.Some? && referer.value != []
    ensures "Referer" in h ==> h["Referer"] == referer.value
    ensures h.Keys <= {"Referer"}
  {
    if referer.Some? && referer.value != [] then map["Referer" := referer.value] else map[]
  }

  /** `download_file`: attempts 1..retries; a success returns at once, a caught
      request error sleeps `attempt` seconds (after the last attempt too) and
      the call gives up once every attempt failed; any other error escapes.
      `sleeps` lists the pauses in order. */
  method DownloadFile(script: Script, retries: int, referer: Option<String>)
    returns (outcome: Outcome, requests: nat, sleeps: seq<nat>, headers: map<String, String>)
    ensures Run(outcome, requests) == Retry(script, retries)
    ensures headers == Headers(referer)
    ensures |sleeps| == if outcome == GaveUp then requests else requests - 1
    ensures forall i :: 0 <= i < |sleeps| ==> sleeps[i] == i + 1
  {
    headers := if referer.Some? && referer.value != [] then map["Referer" := referer.value] else map[];
    requests := 0;
    sleeps := [];
    var attempt := 1;
    while attempt <= retries
      invariant 1 <= attempt
      invariant attempt <= retries + 1 || attempt == 1
      invariant requests == attempt - 1
      invariant |sleeps| == attempt - 1
      invariant forall i :: 0 <= i < |sleeps| ==> sleeps[i] == i + 1
      invariant FirstDecisive(script, attempt, retries) == FirstDecisive(script, 1, retries)
      decreases retries - attempt
    {
      requests := requests + 1;
      match script(attempt)
      case Fetched =>
        outcome := Saved;
        return;
      case Fatal =>
        outcome := Raised;
        return;
      case Transient =>
        sleeps := sleeps + [attempt];
      attempt := attempt + 1;
    }
    outcome := GaveUp;
  }

  // ---------------------------------------------------------------------
  // scrape_episode

  /** The extension `os.path.splitext` splits off a POSIX path: from the last
      dot after the last "/", provided the file name has something other than
      dots before it; "" otherwise. */
  function SplitExt(p: String): String {
    var sep := LastIndexOf(p, '/');
    var dot := LastIndexOf(p, '.');
    if dot > sep && !OnlyDots(p[sep + 1..dot]) then p[dot..] else []
  }

  /** Whether a string is made of dots alone. */
  predicate OnlyDots(s: String) {
    s == [] || (s[0] == '.' && OnlyDots(s[1..]))
  }

  lemma {:induction false} OnlyDotsAt(s: String, k: nat)
    requires OnlyDots(s) && k < |s|
    ensures s[k] == '.'
  {
    if k > 0 {
      OnlyDotsAt(s[1..], k - 1);
    }
  }

  /** A non-empty extension starts at a dot and is a proper suffix of the path. */
  lemma SplitExtShape(p: String)
    ensures SplitExt(p) == [] || (
      && SplitExt(p)[0] == '.' && |SplitExt(p)| < |p|
      && SplitExt(p) == p[|p| - |SplitExt(p)|..])
  {
    var sep := LastIndexOf(p, '/');
    var dot := LastIndexOf(p, '.');
    if dot > sep && !OnlyDots(p[sep + 1..dot]) {
      assert p[sep + 1..dot] != [];
      assert p[dot..][0] == p[dot];
    }
  }

  /** A path whose file name ends in `.x`, with `x` free of dots and slashes
      and something other than a dot just before it, has the extension `.x`. */
  lemma SplitExtOfName(stem: String, x: String)
    requires stem != [] && stem[|stem| - 1] != '/' && stem[|stem| - 1] != '.'
    requires '/' !in x && '.' !in x
    ensures SplitExt(stem + "." + x) == "." + x
  {
    var p := stem + "." + x;
    ExtParts(stem, x);
    LastIndexOfIs(p, '.', |stem|);
    LastIndexOfBelow(p, '/', |stem| - 1);
    var sep := LastIndexOf(p, '/');
    var name := p[sep + 1..|stem|];
    assert name[|name| - 1] == stem[|stem| - 1];
    if OnlyDots(name) {
      OnlyDotsAt(name, |name| - 1);
    }
  }

  /** The characters of `stem.x` around and after its last dot. */
  lemma ExtParts(stem: String, x: String)
    requires stem != [] && '/' !in x && '.' !in x
    ensures var p := stem + "." + x;
      && p[|stem|] == '.' && p[|stem| - 1] == stem[|stem| - 1] && p[|stem|..] == "." + x
      && forall k :: |stem| < k < |p| ==> p[k] != '.' && p[k] != '/'
  {
    var p := stem + "." + x;
    forall k | |stem| < k < |p| ensures p[k] != '.' && p[k] != '/' {
      assert p[k] == x[k - |stem| - 1];
    }
    assert p[|stem|..] == "." + x;
  }

  /** The extension of an image URL: `splitext` of the part before the first
      "?", lower-cased, ".jpg" when empty or not allow-listed. */
  function ImageExtension(url: String): (e: String)
    ensures IsAllowedExtension(e)
  {
    var ext := Lower(SplitExt(BeforeFirst(url, '?')));
    AllowedOrJpg(if ext != [] then ext else ".jpg")
  }

  /** An image file name `stem.x` keeps its lower-cased extension when that is
      allow-listed, and gets ".jpg" otherwise. */
  lemma ImageExtensionOfName(stem: String, x: String)
    requires stem != [] && stem[|stem| - 1] != '/' && stem[|stem| - 1] != '.'
    requires '/' !in x && '.' !in x && '?' !in stem && '?' !in x
    ensures ImageExtension(stem + "." + x) == AllowedOrJpg(Lower("." + x))
  {
    assert '?' !in stem + "." + x;
    BeforeFirstNone(stem + "." + x, '?');
    SplitExtOfName(stem, x);
  }

  /** The query string never decides the extension. */
  lemma ImageExtensionIgnoresQuery(url: String, query: String)
    requires '?' !in url
    ensures ImageExtension(url + "?" + query) == ImageExtension(url)
  {
    BeforeFirstAppend(url, '?', query);
    BeforeFirstNone(url, '?');
  }

  /** The file name of the image at 1-based `position` of episode `index`. */
  function ImageName(index: nat, position: nat, url: String): String {
    PaddedImageName(index, position, ImageExtension(url))
  }

  /** Within an episode, different positions never share a file name. */
  lemma ImageNamesDiffer(index: nat, p: nat, q: nat, u: String, v: String)
    requires p != q
    ensures ImageName(index, p, u) != ImageName(index, q, v)
  {
    if ImageName(index, p, u) == ImageName(index, q, v) {
      PaddedImageNameInjective(index, p, q, ImageExtension(u), ImageExtension(v));
    }
  }

  /** The file names of the images, one per URL (positions count from 1). */
  function FileNames(index: nat, urls: seq<String>): (names: seq<String>)
    ensures |names| == |urls|
  {
    seq(|urls|, i requires 0 <= i < |urls| => ImageName(index, i + 1, urls[i]))
  }

  /** Which downloads saved their file, when image `i` (0-based) is fetched
      with `net(i)` and `download_file`'s default three attempts. */
  function SavedFlags(urls: seq<String>, net: nat -> Script): (saved: seq<bool>)
    ensures |saved| == |urls|
  {
    seq(|urls|, i requires 0 <= i < |urls| => Retry(net(i), 3).outcome == Saved)
  }

  /** The names of the images saved, in order. */
  function Names(index: nat, urls: seq<String>, net: nat -> Script): seq<String> {
    Kept(FileNames(index, urls), SavedFlags(urls, net), |urls|)
  }

  /** The names saved by the first `i` downloads. */
  function SavedSoFar(index: nat, urls: seq<String>, net: nat -> Script, i: nat): seq<String>
    requires i <= |urls|
  {
    Kept(FileNames(index, urls), SavedFlags(urls, net), i)
  }

  /** No download before the `i`-th raised. */
  ghost predicate NoneRaised(net: nat -> Script, i: nat) {
    forall k :: 0 <= k < i ==> Retry(net(k), 3).outcome != Raised
  }

  lemma NoneRaisedStep(net: nat -> Script, i: nat)
    requires NoneRaised(net, i) && Retry(net(i), 3).outcome != Raised
    ensures NoneRaised(net, i + 1)
  {
  }

  /** One step of the download loop. */
  lemma SavedSoFarStep(index: nat, urls: seq<String>, net: nat -> Script, i: nat, outcome: Outcome)
    requires i < |urls| && outcome == Retry(net(i), 3).outcome
    ensures SavedSoFar(index, urls, net, i + 1) ==
      SavedSoFar(index, urls, net, i) + (if outcome == Saved then [ImageName(index, i + 1, urls[i])] else [])
  {
  }

  /** Whether some image's download raised an error the loop does not catch. */
  ghost predicate SomeRaised(urls: seq<String>, net: nat -> Script) {
    exists i :: 0 <= i < |urls| && Retry(net(i), 3).outcome == Raised
  }

  /** The dictionary `scrape_episode` returns. */
  datatype EpisodeRecord = EpisodeRecord(
    parentTitle: String, title: String, slag: String, date: String,
    thumbnail: String, images: seq<String>, source: String, caption: String)

  /** The record for episode `index` of the comic directory `comicName`. */
  function Record(meta: Episode, comicName: String, index: nat, images: seq<String>): (r: EpisodeRecord)
    ensures r.images == images && r.source == meta.url && r.parentTitle == comicName
    ensures r.thumbnail == if images == [] then [] else images[0]
    ensures r.date == meta.date && r.caption == meta.caption
    ensures StartsWith(r.title, "episode ") && StartsWith(r.slag, "episode-")
  {
    EpisodeRecord(comicName, "episode " + Pad3(index), "episode-" + Pad3(index), meta.date,
      if images != [] then images[0] else [], images, meta.url, meta.caption)
  }

  /** Episodes with different numbers get different titles and different slugs. */
  lemma RecordTitlesDiffer(meta: Episode, comicName: String, a: nat, b: nat, images: seq<String>, others: seq<String>)
    requires a != b
    ensures Record(meta, comicName, a, images).title != Record(meta, comicName, b, others).title
    ensures Record(meta, comicName, a, images).slag != Record(meta, comicName, b, others).slag
  {
    if "episode " + Pad3(a) == "episode " + Pad3(b) {
      CancelPrefix("episode ", Pad3(a), Pad3(b));
      Pad3Injective(a, b);
    }
    if "episode-" + Pad3(a) == "episode-" + Pad3(b) {
      CancelPrefix("episode-", Pad3(a), Pad3(b));
      Pad3Injective(a, b);
    }
  }

  /** `scrape_episode` from the page's image elements on: the URLs are
      extracted, each image is downloaded in turn with the episode URL as
      referer, and the names of those saved make up the record. An error a
      download does not catch ends the call. */
  method ScrapeEpisode(meta: Episode, comicName: String, index: nat, page: seq<seq<Element>>, net: nat -> Script)
    returns (r: Fallible<EpisodeRecord>)
    ensures r.Threw? <==> SomeRaised(ImageUrls(page), net)
    ensures r.Returned? ==> r.value == Record(meta, comicName, index, Names(index, ImageUrls(page), net))
  {
    var urls := ExtractImageUrls(page);
    var images: seq<String> := [];
    for i := 0 to |urls|
      invariant images == SavedSoFar(index, urls, net, i)
      invariant NoneRaised(net, i)
    {
      var outcome, requests, _, _ := DownloadFile(net(i), 3, Some(meta.url));
      if outcome == Raised {
        assert urls == ImageUrls(page) && Retry(net(i), 3).outcome == Raised;
        return Threw;
      }
      NoneRaisedStep(net, i);
      var filename := ImageName(index, i + 1, urls[i]);
      if outcome == Saved {
        images := images + [filename];
      }
      SavedSoFarStep(index, urls, net, i, outcome);
    }
    var thumbnail := if images != [] then images[0] else [];
    r := Returned(EpisodeRecord(comicName, "episode " + Pad3(index), "episode-" + Pad3(index), meta.date,
      thumbnail, images, meta.url, meta.caption));
  }

  /** Where a saved name comes from: the image at position `p`, which was saved. */
  lemma NamesAt(index: nat, urls: seq<String>, net: nat -> Script, k: nat) returns (p: nat)
    requires k < |Names(index, urls, net)|
    ensures 1 <= p <= |urls| && Retry(net(p - 1), 3).outcome == Saved
    ensures Names(index, urls, net)[k] == ImageName(index, p, urls[p - 1])
  {
    var i := KeptAt(FileNames(index, urls), SavedFlags(urls, net), |urls|, k);
    p := i + 1;
  }

  /** Every image that was saved is named in the list. */
  lemma NamesComplete(index: nat, urls: seq<String>, net: nat -> Script, p: nat)
    requires 1 <= p <= |urls| && Retry(net(p - 1), 3).outcome == Saved
    ensures ImageName(index, p, urls[p - 1]) in Names(index, urls, net)
  {
    KeptComplete(FileNames(index, urls), SavedFlags(urls, net), |urls|, p - 1);
  }

  /** Different positions have different file names. */
  lemma FileNamesDistinct(index: nat, urls: seq<String>)
    ensures Distinct(FileNames(index, urls))
  {
    forall i, j | 0 <= i < j < |urls| ensures FileNames(index, urls)[i] != FileNames(index, urls)[j] {
      FileNamesDiffer(index, urls, i, j);
    }
  }

  lemma FileNamesDiffer(index: nat, urls: seq<String>, i: nat, j: nat)
    requires i < j < |urls|
    ensures FileNames(index, urls)[i] != FileNames(index, urls)[j]
  {
    ImageNamesDiffer(index, i + 1, j + 1, urls[i], urls[j]);
  }

  /** At most one name per image, and no name twice. */
  lemma NamesDistinct(index: nat, urls: seq<String>, net: nat -> Script)
    ensures |Names(index, urls, net)| <= |urls|
    ensures Distinct(Names(index, urls, net))
  {
    FileNamesDistinct(index, urls);
    KeptDistinct(FileNames(index, urls), SavedFlags(urls, net), |urls|);
  }
}
