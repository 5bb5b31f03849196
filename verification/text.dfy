/** String helpers shared by the scraper models: Python's and JavaScript's
    notions of whitespace, strip/trim, ASCII case mapping, substring tests,
    splitting and joining, and decimal digit strings. */
module Text {
  import opened Seqs
  import opened Wrappers

  type String = seq<char>

  /** Whitespace as Python's `str.isspace`, `str.strip`, `str.split()` and the
      `\s` class of its `re` module see it. */
  predicate IsPySpace(c: char) {
    c == ' ' || ('\t' <= c <= '\r') || ('\U{1C}' <= c <= '\U{1F}') || c == '\U{85}'
    || c == '\U{A0}' || c == '\U{1680}' || ('\U{2000}' <= c <= '\U{200A}')
    || c == '\U{2028}' || c == '\U{2029}' || c == '\U{202F}' || c == '\U{205F}'
    || c == '\U{3000}'
  }

  /** Whitespace as JavaScript's `String.prototype.trim` sees it. */
  predicate IsJsSpace(c: char) {
    c == ' ' || ('\t' <= c <= '\r') || c == '\U{A0}' || c == '\U{1680}'
    || ('\U{2000}' <= c <= '\U{200A}') || c == '\U{2028}' || c == '\U{2029}'
    || c == '\U{202F}' || c == '\U{205F}' || c == '\U{3000}' || c == '\U{FEFF}'
  }

  predicate IsUpperAscii(c: char) { 'A' <= c <= 'Z' }
  predicate IsLowerAscii(c: char) { 'a' <= c <= 'z' }
  predicate IsAsciiLetter(c: char) { IsUpperAscii(c) || IsLowerAscii(c) }
  predicate IsAsciiDigit(c: char) { '0' <= c <= '9' }
  predicate IsAsciiAlnum(c: char) { IsAsciiLetter(c) || IsAsciiDigit(c) }

  // ---------------------------------------------------------------------
  // Trimming

  /** Number of leading characters that are `ws`. */
  function LeadingCount(s: String, ws: char -> bool): (n: nat)
    ensures n <= |s|
    ensures forall k :: 0 <= k < n ==> ws(s[k])
    ensures n < |s| ==> !ws(s[n])
  {
    if s == [] || !ws(s[0]) then 0 else 1 + LeadingCount(s[1..], ws)
  }

  /** Start of the run of trailing characters that are `ws`. */
  function TrailingStart(s: String, ws: char -> bool): (n: nat)
    ensures n <= |s|
    ensures forall k :: n <= k < |s| ==> ws(s[k])
    ensures 0 < n ==> !ws(s[n - 1])
  {
    if s == [] || !ws(s[|s| - 1]) then |s| else TrailingStart(s[..|s| - 1], ws)
  }

  /** `s` without its leading and trailing `ws` characters. */
  function TrimBy(s: String, ws: char -> bool): (r: String)
    ensures |r| <= |s|
  {
    var i := LeadingCount(s, ws);
    var j := TrailingStart(s, ws);
    if j <= i then [] else s[i..j]
  }

  /** The trimmed text neither begins nor ends with a `ws` character, is empty
      exactly when every character is `ws`, and is the slice of `s` that starts
      after the leading `ws` characters. */
  lemma TrimByShape(s: String, ws: char -> bool)
    ensures var r := TrimBy(s, ws);
      && (r == [] || (!ws(r[0]) && !ws(r[|r| - 1])))
      && (r == [] <==> forall k :: 0 <= k < |s| ==> ws(s[k]))
      && LeadingCount(s, ws) + |r| <= |s|
      && r == s[LeadingCount(s, ws)..LeadingCount(s, ws) + |r|]
  {
    var i := LeadingCount(s, ws);
    var j := TrailingStart(s, ws);
    if j <= i {
      assert forall k :: 0 <= k < |s| ==> ws(s[k]);
    } else {
      assert !ws(s[i]);
    }
  }

  /** The trimmed text is a slice of `s` with only `ws` characters around it. */
  lemma TrimPieces(s: String, ws: char -> bool) returns (i: nat, j: nat)
    ensures i <= j <= |s| && TrimBy(s, ws) == s[i..j]
    ensures forall k :: 0 <= k < |s[..i]| ==> ws(s[..i][k])
    ensures forall k :: 0 <= k < |s[j..]| ==> ws(s[j..][k])
  {
    i := LeadingCount(s, ws);
    j := TrailingStart(s, ws);
    if j <= i {
      j := i;
    }
    forall k | 0 <= k < |s[j..]| ensures ws(s[j..][k]) {
      assert s[j..][k] == s[j + k];
    }
  }

  /** Trimming loses no character that is not `ws`. */
  lemma TrimKeepsContent(s: String, ws: char -> bool)
    ensures Reject(TrimBy(s, ws), ws) == Reject(s, ws)
  {
    var i, j := TrimPieces(s, ws);
    assert s == s[..i] + s[i..j] + s[j..];
    RejectPadded(s[..i], s[i..j], s[j..], ws);
  }

  /** A filter that keeps no whitespace sees the same characters before and
      after stripping. */
  lemma StripThenFilter(s: String, p: char -> bool)
    requires forall c :: p(c) ==> !IsPySpace(c)
    ensures Filter(Strip(s), p) == Filter(s, p)
  {
    TrimKeepsContent(s, IsPySpace);
    FilterAfterReject(Strip(s), IsPySpace, p);
    FilterAfterReject(s, IsPySpace, p);
  }

  /** Trimming twice trims nothing more. */
  lemma TrimIdempotent(s: String, ws: char -> bool)
    ensures TrimBy(TrimBy(s, ws), ws) == TrimBy(s, ws)
  {
    var r := TrimBy(s, ws);
    if r != [] {
      assert LeadingCount(r, ws) == 0;
      assert TrailingStart(r, ws) == |r|;
    }
  }

  /** `re.sub(r"[...]+", " ", s)` for a character class `p`: every maximal run
      of characters satisfying `p` becomes one space. */
  function CollapseRuns(s: String, p: char -> bool): (r: String)
    ensures s != [] ==> r != [] && (p(s[0]) ==> r[0] == ' ') && (!p(s[0]) ==> r[0] == s[0])
    ensures forall i :: 0 <= i < |r| && p(r[i]) ==> r[i] == ' '
    ensures forall i :: 0 <= i < |r| - 1 ==> !(p(r[i]) && p(r[i + 1]))
    decreases |s|
  {
    if s == [] then []
    else if p(s[0]) then
      var rest := s[LeadingCount(s, p)..];
      [' '] + CollapseRuns(rest, p)
    else
      [s[0]] + CollapseRuns(s[1..], p)
  }

  /** Collapsing runs keeps every character outside the class, in order. */
  lemma {:induction false} CollapseKeepsContent(s: String, p: char -> bool)
    requires p(' ')
    ensures Reject(CollapseRuns(s, p), p) == Reject(s, p)
    decreases |s|
  {
    if s != [] {
      if p(s[0]) {
        var n := LeadingCount(s, p);
        var rest := s[n..];
        CollapseKeepsContent(rest, p);
        assert s == s[..n] + rest;
        RejectAppend(s[..n], rest, p);
        RejectAll(s[..n], p);
        RejectAppend([' '], CollapseRuns(rest, p), p);
      } else {
        assert s == [s[0]] + s[1..];
        CollapseKeepsContent(s[1..], p);
        RejectAppend([s[0]], s[1..], p);
        RejectAppend([s[0]], CollapseRuns(s[1..], p), p);
      }
    }
  }

  /** Python's `str.strip()`. */
  function Strip(s: String): String { TrimBy(s, IsPySpace) }

  /** JavaScript's `String.prototype.trim()`. */
  function JsTrim(s: String): String { TrimBy(s, IsJsSpace) }

  // ---------------------------------------------------------------------
  // Case mapping (ASCII letters; other characters are left as they are)

  function LowerChar(c: char): (d: char)
    ensures !IsUpperAscii(d)
    ensures IsAsciiLetter(c) <==> IsAsciiLetter(d)
    ensures !IsUpperAscii(c) ==> d == c
  {
    if IsUpperAscii(c) then (c as int + 32) as char else c
  }

  function UpperChar(c: char): (d: char)
    ensures !IsLowerAscii(d)
    ensures IsAsciiLetter(c) <==> IsAsciiLetter(d)
    ensures !IsLowerAscii(c) ==> d == c
  {
    if IsLowerAscii(c) then (c as int - 32) as char else c
  }

  /** Python's `str.lower()`. */
  function Lower(s: String): (r: String)
    ensures |r| == |s|
    ensures forall i :: 0 <= i < |s| ==> r[i] == LowerChar(s[i])
  {
    seq(|s|, i requires 0 <= i < |s| => LowerChar(s[i]))
  }

  /** Python's `str.upper()`. */
  function Upper(s: String): (r: String)
    ensures |r| == |s|
    ensures forall i :: 0 <= i < |s| ==> r[i] == UpperChar(s[i])
  {
    seq(|s|, i requires 0 <= i < |s| => UpperChar(s[i]))
  }

  /** Python's `str.title()`: a letter is upper-cased when the character before it
      is not a letter, and lower-cased otherwise. */
  function Title(s: String): (r: String)
    ensures |r| == |s|
    ensures forall i :: 0 <= i < |s| ==> r[i] == TitleAt(s, i)
  {
    seq(|s|, i requires 0 <= i < |s| => TitleAt(s, i))
  }

  /** The character `str.title()` puts at position `i`. */
  function TitleAt(s: String, i: nat): char
    requires i < |s|
  {
    if i == 0 || !IsAsciiLetter(s[i - 1]) then UpperChar(s[i]) else LowerChar(s[i])
  }

  /** Title-casing an already title-cased string changes nothing. */
  lemma TitleIdempotent(s: String)
    ensures Title(Title(s)) == Title(s)
  {
  }

  // ---------------------------------------------------------------------
  // Substrings

  predicate StartsWith(s: String, prefix: String) {
    |prefix| <= |s| && s[..|prefix|] == prefix
  }

  predicate EndsWith(s: String, suffix: String) {
    |suffix| <= |s| && s[|s| - |suffix|..] == suffix
  }

  /** A concatenation begins with its first part and ends with its second. */
  lemma ConcatAffixes(a: String, b: String)
    ensures StartsWith(a + b, a) && EndsWith(a + b, b)
  {
    assert (a + b)[..|a|] == a;
    assert (a + b)[|a + b| - |b|..] == b;
  }

  /** Python's `pat in s`. */
  predicate Contains(s: String, pat: String)
    decreases |s|
  {
    StartsWith(s, pat) || (s != [] && Contains(s[1..], pat))
  }

  /** A pattern found in `b` is still found after text is put in front of it. */
  lemma {:induction false} ContainsAfterPrefix(a: String, b: String, pat: String)
    requires Contains(b, pat)
    ensures Contains(a + b, pat)
  {
    if a == [] {
      assert a + b == b;
    } else {
      assert (a + b)[1..] == a[1..] + b;
      ContainsAfterPrefix(a[1..], b, pat);
    }
  }

  /** A pattern found in `b` is still found after text is put behind it. */
  lemma {:induction false} ContainsBeforeSuffix(b: String, a: String, pat: String)
    requires Contains(b, pat)
    ensures Contains(b + a, pat)
  {
    if StartsWith(b, pat) {
      assert (b + a)[..|pat|] == b[..|pat|];
    } else {
      assert (b + a)[1..] == b[1..] + a;
      ContainsBeforeSuffix(b[1..], a, pat);
    }
  }

  /** A one-character pattern occurs exactly when the character does. */
  lemma {:induction false} ContainsChar(s: String, c: char)
    ensures Contains(s, [c]) <==> c in s
  {
    if s != [] {
      ContainsChar(s[1..], c);
      assert s == [s[0]] + s[1..];
    }
  }

  /** A string of digits contains no pattern that starts with a non-digit. */
  lemma {:induction false} DigitsAvoid(s: String, pat: String)
    requires AllDigits(s) && pat != [] && !IsAsciiDigit(pat[0])
    ensures !Contains(s, pat)
  {
    if s != [] {
      DigitsAvoid(s[1..], pat);
      if |pat| <= |s| {
        assert s[..|pat|][0] == s[0];
      }
    }
  }

  /** The text after the first occurrence of `pat` (`s.split(pat, 1)[1]`). */
  function AfterFirst(s: String, pat: String): (r: String)
    requires Contains(s, pat)
    ensures |r| <= |s| - |pat|
    ensures r == s[|s| - |r|..]
    ensures s[|s| - |r| - |pat|..|s| - |r|] == pat
    decreases |s|
  {
    if StartsWith(s, pat) then s[|pat|..]
    else
      var r := AfterFirst(s[1..], pat);
      assert s[1..][|s| - 1 - |r|..] == s[|s| - |r|..];
      assert s[1..][|s| - 1 - |r| - |pat|..|s| - 1 - |r|] == s[|s| - |r| - |pat|..|s| - |r|];
      r
  }

  /** The text before the first `c` (`s.split(c)[0]`). */
  function BeforeFirst(s: String, c: char): (r: String)
    ensures c !in r
    ensures |r| <= |s| && r == s[..|r|]
    ensures |r| < |s| ==> s[|r|] == c
  {
    if s == [] || s[0] == c then [] else [s[0]] + BeforeFirst(s[1..], c)
  }

  /** Text before the first `c` of `a + [c] + b` is `a` when `a` has no `c`. */
  lemma {:induction false} BeforeFirstAppend(a: String, c: char, b: String)
    requires c !in a
    ensures BeforeFirst(a + [c] + b, c) == a
  {
    if a != [] {
      assert (a + [c] + b)[1..] == a[1..] + [c] + b;
      BeforeFirstAppend(a[1..], c, b);
    } else {
      assert a + [c] + b == [c] + b;
    }
  }

  lemma {:induction false} BeforeFirstNone(s: String, c: char)
    requires c !in s
    ensures BeforeFirst(s, c) == s
  {
    if s != [] {
      BeforeFirstNone(s[1..], c);
    }
  }

  /** The text after the last `c` (`s.split(c)[-1]`, `s.rsplit(c, 1)[-1]`). */
  function AfterLast(s: String, c: char): (r: String)
    ensures c !in r
    ensures |r| <= |s| && r == s[|s| - |r|..]
    ensures |r| < |s| ==> s[|s| - |r| - 1] == c
  {
    if s == [] || s[|s| - 1] == c then [] else AfterLast(s[..|s| - 1], c) + [s[|s| - 1]]
  }

  /** Anything up to a `c` is cut off by AfterLast. */
  lemma {:induction false} AfterLastAppend(a: String, c: char, b: String)
    requires c !in b
    ensures AfterLast(a + [c] + b, c) == b
  {
    var s := a + [c] + b;
    if b == [] {
      assert s[|s| - 1] == c;
    } else {
      var init := b[..|b| - 1];
      assert s[..|s| - 1] == a + [c] + init;
      assert s[|s| - 1] == b[|b| - 1];
      AfterLastAppend(a, c, init);
      assert init + [b[|b| - 1]] == b;
    }
  }

  /** Position of the last `c` in `s`, or -1 (`str.rfind`). */
  function LastIndexOf(s: String, c: char): (i: int)
    ensures -1 <= i < |s|
    ensures i >= 0 ==> s[i] == c
    ensures forall k :: i < k < |s| ==> s[k] != c
  {
    if s == [] then -1
    else if s[|s| - 1] == c then |s| - 1
    else LastIndexOf(s[..|s| - 1], c)
  }

  /** The last `c` is at `i` when `s[i]` is one and none follows. */
  lemma LastIndexOfIs(s: String, c: char, i: nat)
    requires i < |s| && s[i] == c
    requires forall k :: i < k < |s| ==> s[k] != c
    ensures LastIndexOf(s, c) == i
  {
  }

  /** The last `c` is before `i` when neither `s[i]` nor anything after it is one. */
  lemma LastIndexOfBelow(s: String, c: char, i: nat)
    requires i < |s|
    requires forall k :: i <= k < |s| ==> s[k] != c
    ensures LastIndexOf(s, c) < i
  {
  }

  /** Python's ordering of strings: code point by code point, a proper prefix first. */
  predicate StrLe(a: String, b: String) {
    a == [] || (b != [] && (a[0] < b[0] || (a[0] == b[0] && StrLe(a[1..], b[1..]))))
  }

  lemma {:induction false} StrLeTotal(a: String, b: String)
    ensures StrLe(a, b) || StrLe(b, a)
  {
    if a != [] && b != [] && a[0] == b[0] {
      StrLeTotal(a[1..], b[1..]);
    }
  }

  lemma {:induction false} StrLeTrans(a: String, b: String, c: String)
    requires StrLe(a, b) && StrLe(b, c)
    ensures StrLe(a, c)
  {
    if a != [] && a[0] == b[0] && b[0] == c[0] {
      StrLeTrans(a[1..], b[1..], c[1..]);
    }
  }

  lemma {:induction false} StrLeAntisymmetric(a: String, b: String)
    requires StrLe(a, b) && StrLe(b, a)
    ensures a == b
  {
    if a != [] && b != [] {
      StrLeAntisymmetric(a[1..], b[1..]);
      assert a == [a[0]] + a[1..] && b == [b[0]] + b[1..];
    }
  }

  // ---------------------------------------------------------------------
  // Replacement, splitting and joining

  /** `s` with every `from` replaced by `to` (`str.replace` with one-character arguments). */
  function ReplaceChar(s: String, from: char, to: char): (r: String)
    ensures |r| == |s|
    ensures forall i :: 0 <= i < |s| ==> r[i] == (if s[i] == from then to else s[i])
  {
    seq(|s|, i requires 0 <= i < |s| => if s[i] == from then to else s[i])
  }

  /** Python's `str.replace(pat, rep)`: non-overlapping occurrences, left to right. */
  function ReplaceAll(s: String, pat: String, rep: String): (r: String)
    requires pat != []
    ensures !Contains(s, pat) ==> r == s
    decreases |s|
  {
    if |s| < |pat| then s
    else if s[..|pat|] == pat then rep + ReplaceAll(s[|pat|..], pat, rep)
    else [s[0]] + ReplaceAll(s[1..], pat, rep)
  }

  /** Replacing a pattern by the empty string leaves no occurrence behind when the
      pattern is a single character. */
  lemma {:induction false} ReplaceCharGone(s: String, c: char)
    ensures c !in ReplaceAll(s, [c], [])
  {
    if |s| >= 1 {
      ReplaceCharGone(s[1..], c);
    }
  }

  /** `sep.join(parts)`. */
  function Join(parts: seq<String>, sep: String): String {
    if parts == [] then []
    else if |parts| == 1 then parts[0]
    else parts[0] + sep + Join(parts[1..], sep)
  }

  /** `s.split(sep)` for a one-character separator. */
  function SplitOn(s: String, sep: char): (parts: seq<String>)
    ensures |parts| >= 1
    ensures forall i :: 0 <= i < |parts| ==> sep !in parts[i]
  {
    if s == [] then [[]]
    else
      var rest := SplitOn(s[1..], sep);
      if s[0] == sep then [[]] + rest
      else [[s[0]] + rest[0]] + rest[1..]
  }

  /** Splitting on a separator and joining with it gives the original back. */
  lemma {:induction false} JoinSplitOn(s: String, sep: char)
    ensures Join(SplitOn(s, sep), [sep]) == s
  {
    if s != [] {
      var rest := SplitOn(s[1..], sep);
      JoinSplitOn(s[1..], sep);
      if s[0] != sep {
        var parts := SplitOn(s, sep);
        if |rest| == 1 {
          assert Join(parts, [sep]) == [s[0]] + rest[0];
        } else {
          assert parts[1..] == rest[1..];
          calc {
            Join(parts, [sep]);
            ([s[0]] + rest[0]) + [sep] + Join(rest[1..], [sep]);
            [s[0]] + (rest[0] + [sep] + Join(rest[1..], [sep]));
            [s[0]] + Join(rest, [sep]);
          }
        }
        assert [s[0]] + s[1..] == s;
      } else {
        assert [s[0]] + s[1..] == s;
      }
    }
  }

  /** Joining pieces free of the separator and splitting again gives the pieces back. */
  lemma {:induction false} SplitOnJoin(parts: seq<String>, sep: char)
    requires |parts| >= 1
    requires forall i :: 0 <= i < |parts| ==> sep !in parts[i]
    ensures SplitOn(Join(parts, [sep]), sep) == parts
  {
    if |parts| == 1 {
      SplitOnNoSep(parts[0], sep);
    } else {
      SplitOnJoin(parts[1..], sep);
      var tail := Join(parts[1..], [sep]);
      var b := [sep] + tail;
      assert Join(parts, [sep]) == parts[0] + b;
      assert b[1..] == tail;
      var q := SplitOn(b, sep);
      assert q == [[]] + parts[1..];
      SplitOnPrefix(parts[0], b, sep);
      assert parts[0] + q[0] == parts[0];
      assert [parts[0]] + parts[1..] == parts;
    }
  }

  lemma {:induction false} SplitOnNoSep(s: String, sep: char)
    requires sep !in s
    ensures SplitOn(s, sep) == [s]
  {
    if s != [] {
      SplitOnNoSep(s[1..], sep);
      assert [s[0]] + s[1..] == s;
    }
  }

  /** A separator-free prefix lands in the first piece. */
  lemma {:induction false} SplitOnPrefix(a: String, b: String, sep: char)
    requires sep !in a
    ensures var p := SplitOn(a + b, sep);
            var q := SplitOn(b, sep);
            p == [a + q[0]] + q[1..]
  {
    var q := SplitOn(b, sep);
    if a == [] {
      EmptyAppend(b);
      EmptyAppend(q[0]);
      HeadTail(q);
    } else {
      AppendTail(a, b);
      SplitOnPrefix(a[1..], b, sep);
      SplitOnHead(a + b, sep);
      ConsParts(a[1..] + q[0], q[1..]);
      ConsAppendHead(a, q[0]);
    }
  }

  lemma SplitOnHead(s: String, sep: char)
    requires s != [] && s[0] != sep
    ensures var rest := SplitOn(s[1..], sep);
            SplitOn(s, sep) == [[s[0]] + rest[0]] + rest[1..]
  {
  }

  /** Length of the run of non-whitespace characters at the start of `s`. */
  function WordLength(s: String): (n: nat)
    ensures n <= |s|
    ensures forall k :: 0 <= k < n ==> !IsPySpace(s[k])
    ensures n < |s| ==> IsPySpace(s[n])
  {
    if s == [] || IsPySpace(s[0]) then 0 else 1 + WordLength(s[1..])
  }

  /** A word as `str.split()` produces it: non-empty, no whitespace. */
  predicate IsWord(w: String) {
    w != [] && forall k :: 0 <= k < |w| ==> !IsPySpace(w[k])
  }

  /** Python's `str.split()` with no argument: the maximal whitespace-free runs. */
  function SplitWords(s: String): (words: seq<String>)
    ensures forall i :: 0 <= i < |words| ==> IsWord(words[i])
    decreases |s|
  {
    var t := s[LeadingCount(s, IsPySpace)..];
    if t == [] then []
    else
      var n := WordLength(t);
      [t[..n]] + SplitWords(t[n..])
  }

  /** The first word is a slice of the text, and the other words are the
      words of what follows it. */
  lemma SplitWordsFront(s: String) returns (a: nat, b: nat)
    requires SplitWords(s) != []
    ensures a < b <= |s|
    ensures SplitWords(s) == [s[a..b]] + SplitWords(s[b..])
  {
    a := LeadingCount(s, IsPySpace);
    var t := s[a..];
    var n := WordLength(t);
    b := a + n;
    DropParts(s, a, n);
  }

  /** The first word and the text after it: a character missing from the
      text is missing from both, the rest is shorter, and its words are the
      other words. */
  lemma SplitWordsNext(s: String, c: char) returns (w: String, r: String)
    requires SplitWords(s) != []
    ensures |r| < |s|
    ensures SplitWords(s) == [w] + SplitWords(r)
    ensures c !in s ==> c !in w && c !in r
  {
    var a, b := SplitWordsFront(s);
    w, r := s[a..b], s[b..];
    if c in w {
      var k :| 0 <= k < |w| && w[k] == c;
      assert s[a + k] == c;
    }
    if c in r {
      var k :| 0 <= k < |r| && r[k] == c;
      assert s[b + k] == c;
    }
  }

  /** A character missing from a word and from a list of words is missing
      from every word of the longer list. */
  lemma AvoidCons(w: String, rest: seq<String>, c: char)
    requires c !in w && forall i :: 0 <= i < |rest| ==> c !in rest[i]
    ensures forall i :: 0 <= i < |[w] + rest| ==> c !in ([w] + rest)[i]
  {
  }

  /** A character missing from a string is missing from each of its words. */
  lemma {:induction false} SplitWordsAvoid(s: String, c: char)
    requires c !in s
    ensures forall i :: 0 <= i < |SplitWords(s)| ==> c !in SplitWords(s)[i]
    decreases |s|
  {
    if SplitWords(s) != [] {
      var w, r := SplitWordsNext(s, c);
      SplitWordsAvoid(r, c);
      AvoidCons(w, SplitWords(r), c);
    }
  }

  lemma {:induction false} SplitWordsNoSpace(w: String)
    requires IsWord(w)
    ensures SplitWords(w) == [w]
  {
    assert LeadingCount(w, IsPySpace) == 0;
    assert w[0..] == w;
    assert WordLength(w) == |w|;
    assert w[..|w|] == w;
    assert w[|w|..] == [];
    assert SplitWords([]) == [];
  }

  /** Words joined by single spaces split back into the same words. */
  lemma {:induction false} SplitWordsJoin(words: seq<String>)
    requires forall i :: 0 <= i < |words| ==> IsWord(words[i])
    ensures SplitWords(Join(words, " ")) == words
  {
    if |words| == 1 {
      SplitWordsNoSpace(words[0]);
    } else if |words| > 1 {
      SplitWordsJoin(words[1..]);
      SplitWordsJoinStep(words);
    }
  }

  lemma SplitWordsJoinStep(words: seq<String>)
    requires |words| > 1 && IsWord(words[0])
    requires SplitWords(Join(words[1..], " ")) == words[1..]
    ensures SplitWords(Join(words, " ")) == words
  {
    var w := words[0];
    var tail := Join(words[1..], " ");
    assert Join(words, " ") == w + (" " + tail);
    SplitWordsCons(w, " " + tail);
    SplitWordsLeadingSpace(tail);
    assert words == [w] + words[1..];
  }

  /** A word followed by whitespace splits off as the first word. */
  lemma SplitWordsCons(w: String, rest: String)
    requires IsWord(w) && rest != [] && IsPySpace(rest[0])
    ensures SplitWords(w + rest) == [w] + SplitWords(rest)
  {
    var s := w + rest;
    assert s[0] == w[0];
    assert LeadingCount(s, IsPySpace) == 0;
    assert s[0..] == s;
    WordLengthPrefix(w, rest);
    assert s[..|w|] == w;
    assert s[|w|..] == rest;
  }

  lemma {:induction false} WordLengthPrefix(w: String, rest: String)
    requires IsWord(w) && rest != [] && IsPySpace(rest[0])
    ensures WordLength(w + rest) == |w|
  {
    if |w| > 1 {
      assert (w + rest)[1..] == w[1..] + rest;
      WordLengthPrefix(w[1..], rest);
    } else {
      assert (w + rest)[1..] == rest;
    }
  }

  lemma SplitWordsLeadingSpace(t: String)
    ensures SplitWords(" " + t) == SplitWords(t)
  {
    var s := " " + t;
    assert s[1..] == t;
    assert LeadingCount(s, IsPySpace) == 1 + LeadingCount(t, IsPySpace);
    assert s[LeadingCount(s, IsPySpace)..] == t[LeadingCount(t, IsPySpace)..];
  }

  // ---------------------------------------------------------------------
  // Decimal digits

  /** Python's `str.isdigit()` restricted to ASCII digits. */
  predicate IsDigits(s: String) {
    |s| > 0 && forall i :: 0 <= i < |s| ==> IsAsciiDigit(s[i])
  }

  predicate AllDigits(s: String) {
    forall i :: 0 <= i < |s| ==> IsAsciiDigit(s[i])
  }

  function DigitChar(d: nat): (c: char)
    requires d < 10
    ensures IsAsciiDigit(c)
  {
    ('0' as int + d) as char
  }

  /** The number a string of decimal digits denotes (0 for the empty string). */
  function DigitsValue(s: String): nat
    requires AllDigits(s)
  {
    if s == [] then 0 else 10 * DigitsValue(s[..|s| - 1]) + (s[|s| - 1] as int - '0' as int)
  }

  /** `str(n)` for a natural number. */
  function NatToString(n: nat): (r: String)
    ensures IsDigits(r)
    ensures DigitsValue(r) == n
    ensures r[0] == '0' ==> n == 0 && |r| == 1
  {
    if n < 10 then [DigitChar(n)]
    else
      var r := NatToString(n / 10) + [DigitChar(n % 10)];
      assert r[..|r| - 1] == NatToString(n / 10);
      r
  }

  /** Canonical digit strings (no leading zero) are exactly the ones `str` produces. */
  lemma {:induction false} NatToStringOfDigits(s: String)
    requires IsDigits(s) && (s[0] == '0' ==> |s| == 1)
    ensures NatToString(DigitsValue(s)) == s
    decreases |s|
  {
    var init, last := s[..|s| - 1], s[|s| - 1];
    var d := last as int - '0' as int;
    DigitCharOf(last);
    assert s == init + [last];
    if |s| > 1 {
      NatToStringOfDigits(init);
      DigitsValuePositive(init);
      NatToStringSnoc(DigitsValue(init), d);
    } else {
      assert init == [];
    }
  }

  /** A digit character is the character of its value. */
  lemma DigitCharOf(c: char)
    requires IsAsciiDigit(c)
    ensures DigitChar(c as int - '0' as int) == c
  {
  }

  /** `str` of a positive number with a digit appended. */
  lemma NatToStringSnoc(v: nat, d: nat)
    requires 0 < v && d < 10
    ensures NatToString(10 * v + d) == NatToString(v) + [DigitChar(d)]
  {
    LastDigit(v, d);
  }

  /** Appending digit `d` to the number `v` and taking it off again. */
  lemma LastDigit(v: nat, d: nat)
    requires d < 10
    ensures (10 * v + d) / 10 == v && (10 * v + d) % 10 == d
  {
  }

  lemma {:induction false} DigitsValuePositive(s: String)
    requires IsDigits(s) && s[0] != '0'
    ensures DigitsValue(s) > 0
    decreases |s|
  {
    if |s| > 1 {
      DigitsValuePositive(s[..|s| - 1]);
    }
  }

  /** `str` is injective. */
  lemma NatToStringInjective(a: nat, b: nat)
    requires NatToString(a) == NatToString(b)
    ensures a == b
  {
  }

  function Zeros(n: nat): (z: String)
    ensures |z| == n && AllDigits(z)
  {
    seq(n, _ => '0')
  }

  /** Leading zeros do not change the value. */
  lemma {:induction false} DigitsValueZeros(n: nat, s: String)
    requires AllDigits(s)
    ensures AllDigits(Zeros(n) + s)
    ensures DigitsValue(Zeros(n) + s) == DigitsValue(s)
    decreases |s|
  {
    if s == [] {
      assert Zeros(n) + s == Zeros(n);
      DigitsValueAllZero(n);
    } else {
      var t := Zeros(n) + s;
      assert t[..|t| - 1] == Zeros(n) + s[..|s| - 1];
      DigitsValueZeros(n, s[..|s| - 1]);
    }
  }

  lemma {:induction false} DigitsValueAllZero(n: nat)
    ensures DigitsValue(Zeros(n)) == 0
  {
    if n > 0 {
      assert Zeros(n)[..n - 1] == Zeros(n - 1);
      DigitsValueAllZero(n - 1);
    }
  }

  /** `f"{n:03d}"`: the decimal form of `n`, left-padded with zeros to three digits. */
  function Pad3(n: nat): (r: String)
    ensures IsDigits(r) && |r| >= 3
    ensures DigitsValue(r) == n
    ensures n >= 100 ==> r == NatToString(n)
  {
    var d := NatToString(n);
    if |d| >= 3 then d
    else
      DigitsValueZeros(3 - |d|, d);
      Zeros(3 - |d|) + d
  }

  /** Distinct numbers get distinct padded forms. */
  lemma Pad3Injective(a: nat, b: nat)
    requires Pad3(a) == Pad3(b)
    ensures a == b
  {
  }

  lemma {:induction false} LeadingDigitsOf(digits: String, rest: String)
    requires IsDigits(digits) || digits == []
    requires rest == [] || !IsAsciiDigit(rest[0])
    ensures LeadingCount(digits + rest, IsAsciiDigit) == |digits|
  {
    if digits != [] {
      assert (digits + rest)[1..] == digits[1..] + rest;
      LeadingDigitsOf(digits[1..], rest);
    } else {
      assert digits + rest == rest;
    }
  }

  /** Equal texts with the same prefix have equal remainders. */
  lemma CancelPrefix(h: String, x: String, y: String)
    requires h + x == h + y
    ensures x == y
  {
    assert x == (h + x)[|h|..];
  }

  /** A digit string followed by text that does not begin with a digit is
      determined by the whole, and so is the text after it. */
  lemma DigitPrefixUnique(a: String, x: String, b: String, y: String)
    requires IsDigits(a) && IsDigits(b)
    requires x == [] || !IsAsciiDigit(x[0])
    requires y == [] || !IsAsciiDigit(y[0])
    requires a + x == b + y
    ensures a == b && x == y
  {
    LeadingDigitsOf(a, x);
    LeadingDigitsOf(b, y);
    assert a == (a + x)[..|a|];
    assert b == (b + y)[..|b|];
    CancelPrefix(a, x, y);
  }

  /** Python's `int(s)` on a string: surrounding whitespace and one sign are allowed
      around the digits; anything else is a ValueError (None). Underscore
      separators and non-ASCII digits are not modelled. */
  function ParsePyInt(s: String): (r: Option<int>)
    ensures r.Some? <==> IsDigits(Unsigned(Strip(s)))
  {
    var t := Strip(s);
    var u := Unsigned(t);
    if !IsDigits(u) then None
    else if t[0] == '-' then Some(-(DigitsValue(u) as int))
    else Some(DigitsValue(u))
  }

  /** A plain digit string parses to the number it denotes. */
  lemma ParsePyIntDigits(s: String)
    requires IsDigits(s)
    ensures ParsePyInt(s) == Some(DigitsValue(s))
  {
    assert LeadingCount(s, IsPySpace) == 0;
    assert TrailingStart(s, IsPySpace) == |s|;
    assert s[0..|s|] == s;
  }

  /** Text that begins with a letter is not an integer literal. */
  lemma ParsePyIntLetter(s: String)
    requires s != [] && IsAsciiLetter(s[0])
    ensures ParsePyInt(s) == None
  {
    TrimByShape(s, IsPySpace);
    assert LeadingCount(s, IsPySpace) == 0;
    assert Strip(s)[0] == s[0];
  }

  /** The digits of a stripped integer literal: one leading sign is dropped. */
  function Unsigned(t: String): String {
    if t != [] && (t[0] == '+' || t[0] == '-') then t[1..] else t
  }
}
