/** `rename_directories_and_images`: the episode directories of a comic are
    renumbered 1, 2, ... in order of their number (other names last), and the
    files of each are renamed so that their `episode_<n>_` prefix carries the
    new number. Every step is a move on the file system; the first exception
    ends the run and is reported, not raised. */
module RenameDirs {
  import opened Wrappers
  import opened Seqs
  import opened Text
  import opened StableSort

  // ---------------------------------------------------------------------
  // The order of the directories

  /** The sort key `int(x) if x.isdigit() else float('inf')`. */
  datatype DirKey = Number(n: nat) | Infinite

  function DirKeyOf(name: String): DirKey {
    if IsDigits(name) then Number(DigitsValue(name)) else Infinite
  }

  /** Key order: numbers by value, infinity after every number and equal to
      itself. */
  predicate KeyLe(a: DirKey, b: DirKey) {
    b.Infinite? || (a.Number? && a.n <= b.n)
  }

  lemma KeyLeTotalPreorder()
    ensures TotalPreorder(KeyLe)
  {
  }

  /** `dir_list.sort(key=...)`: a stable sort. */
  function SortDirs(dirs: seq<String>): seq<String> {
    SortBy(dirs, DirKeyOf, KeyLe)
  }

  /** The sorted list holds the same names; all-digit names come first, in
      non-decreasing order of value. */
  lemma SortDirsSpec(dirs: seq<String>)
    ensures multiset(SortDirs(dirs)) == multiset(dirs)
    ensures forall i, j :: 0 <= i < j < |SortDirs(dirs)| && IsDigits(SortDirs(dirs)[j]) ==>
      IsDigits(SortDirs(dirs)[i])
    ensures forall i, j :: 0 <= i < j < |SortDirs(dirs)| && IsDigits(SortDirs(dirs)[i]) && IsDigits(SortDirs(dirs)[j]) ==>
      DigitsValue(SortDirs(dirs)[i]) <= DigitsValue(SortDirs(dirs)[j])
  {
    SortByPermutes(dirs, DirKeyOf, KeyLe);
    KeyLeTotalPreorder();
    SortByIsSorted(dirs, DirKeyOf, KeyLe);
  }

  /** Names that are not numbers, and names with the same number, keep their
      listing order. */
  lemma SortDirsStable(dirs: seq<String>)
    requires Distinct(dirs)
    ensures forall i, j :: 0 <= i < j < |SortDirs(dirs)| && DirKeyOf(SortDirs(dirs)[i]) == DirKeyOf(SortDirs(dirs)[j]) ==>
      SortDirs(dirs)[i] in dirs && SortDirs(dirs)[j] in dirs &&
      FirstIndex(dirs, SortDirs(dirs)[i]) < FirstIndex(dirs, SortDirs(dirs)[j])
  {
    var r := SortDirs(dirs);
    SortByPermutes(dirs, DirKeyOf, KeyLe);
    forall x | x in r ensures x in dirs {
      assert x in multiset(r);
    }
    KeyLeTotalPreorder();
    SortByIsStable(dirs, DirKeyOf, KeyLe);
  }

  // ---------------------------------------------------------------------
  // The renumbering map

  /** `dir_mapping`: each listed name to the text of its 1-based position; a
      name listed twice keeps its later position. */
  function Renumbering(dirList: seq<String>): map<String, String> {
    if dirList == [] then map[]
    else Renumbering(dirList[..|dirList| - 1])[dirList[|dirList| - 1] := NatToString(|dirList|)]
  }

  /** The map has a key per listed name, and maps the `i`-th of distinct names
      to `str(i + 1)`. */
  lemma {:induction false} RenumberingSpec(dirList: seq<String>)
    ensures Renumbering(dirList).Keys == set d | d in dirList
    ensures Distinct(dirList) ==>
      forall i :: 0 <= i < |dirList| ==> Renumbering(dirList)[dirList[i]] == NatToString(i + 1)
  {
    if dirList != [] {
      var init := dirList[..|dirList| - 1];
      RenumberingSpec(init);
      assert dirList == init + [dirList[|dirList| - 1]];
      if Distinct(dirList) {
        forall i | 0 <= i < |dirList| ensures Renumbering(dirList)[dirList[i]] == NatToString(i + 1) {
          if i < |init| {
            assert init[i] == dirList[i];
          }
        }
      }
    }
  }

  /** For distinct names every value of the map is one of "1" .. "n"... */
  lemma RenumberingValue(dirList: seq<String>, d: String) returns (k: nat)
    requires Distinct(dirList) && d in Renumbering(dirList)
    ensures 1 <= k <= |dirList| && Renumbering(dirList)[d] == NatToString(k)
  {
    RenumberingSpec(dirList);
    var i :| 0 <= i < |dirList| && dirList[i] == d;
    k := i + 1;
  }

  /** ...each of them is one... */
  lemma RenumberingHits(dirList: seq<String>, k: nat)
    requires Distinct(dirList) && 1 <= k <= |dirList|
    ensures dirList[k - 1] in Renumbering(dirList) && Renumbering(dirList)[dirList[k - 1]] == NatToString(k)
  {
    RenumberingSpec(dirList);
  }

  /** ...and no two names share a new name. */
  lemma RenumberingOneToOne(dirList: seq<String>, a: String, b: String)
    requires Distinct(dirList)
    requires a in Renumbering(dirList) && b in Renumbering(dirList)
    requires Renumbering(dirList)[a] == Renumbering(dirList)[b]
    ensures a == b
  {
    RenumberingSpec(dirList);
    var i :| 0 <= i < |dirList| && dirList[i] == a;
    var j :| 0 <= j < |dirList| && dirList[j] == b;
    NatToStringInjective(i + 1, j + 1);
  }

  /** The loop that fills `dir_mapping`. */
  method BuildMapping(dirList: seq<String>) returns (mapping: map<String, String>)
    ensures mapping == Renumbering(dirList)
  {
    mapping := map[];
    for i := 0 to |dirList|
      invariant mapping == Renumbering(dirList[..i])
    {
      assert dirList[..i + 1][..i] == dirList[..i];
      mapping := mapping[dirList[i] := NatToString(i + 1)];
    }
    TakeAll(dirList);
  }

  // ---------------------------------------------------------------------
  // The file name rewrite

  /** Length of the run of ASCII digits at the front of `s` (`\d+` is greedy). */
  function DigitRun(s: String): (n: nat)
    ensures n <= |s|
    ensures forall k :: 0 <= k < n ==> IsAsciiDigit(s[k])
    ensures n < |s| ==> !IsAsciiDigit(s[n])
  {
    if s == [] || !IsAsciiDigit(s[0]) then 0 else 1 + DigitRun(s[1..])
  }

  /** A run of digits followed by something else is measured exactly. */
  lemma {:induction false} DigitRunOf(a: String, b: String)
    requires AllDigits(a) && (b == [] || !IsAsciiDigit(b[0]))
    ensures DigitRun(a + b) == |a|
  {
    if a != [] {
      assert (a + b)[1..] == a[1..] + b;
      DigitRunOf(a[1..], b);
    } else {
      assert a + b == b;
    }
  }

  /** The groups `(\d+)_(\d+)` at the front of `t`, if they are there: the
      length they cover and the second group. The first group is the whole
      leading run of digits, since only a non-digit can be the "_" after it. */
  function Groups(t: String): (g: Option<(nat, String)>)
    ensures g.Some? ==> 2 <= g.value.0 <= |t| && IsDigits(g.value.1)
    ensures g.Some? ==> g.value.0 == |t| || !IsAsciiDigit(t[g.value.0])
  {
    var d1 := DigitRun(t);
    if d1 == 0 || d1 == |t| || t[d1] != '_' then None
    else
      var d2 := DigitRun(t[d1 + 1..]);
      if d2 == 0 then None else Some((d1 + 1 + d2, t[d1 + 1..d1 + 1 + d2]))
  }

  /** The match of `[Ee]pisode_(\d+)_(\d+)` at the front of `s`, if any: its
      length and its second group. */
  function MatchAt(s: String): (m: Option<(nat, String)>)
    ensures m.Some? ==> 10 <= m.value.0 <= |s| && IsDigits(m.value.1)
    ensures m.Some? ==> m.value.0 == |s| || !IsAsciiDigit(s[m.value.0])
  {
    if |s| < 8 || (s[0] != 'E' && s[0] != 'e') || s[1..8] != "pisode_" then None
    else match Groups(s[8..])
      case None => None
      case Some(g) => Some((8 + g.0, g.1))
  }

  /** The text that replaces a match whose second group is `second`. */
  function Replacement(dir: String, second: String): String {
    "episode_" + dir + "_" + second
  }

  /** `re.sub(r'[Ee]pisode_(\d+)_(\d+)', f'episode_{dir}_\\2', s)`: scanning
      from the left, each match is replaced and the scan goes on after it. */
  function Rewrite(s: String, dir: String): String
    decreases |s|
  {
    if s == [] then []
    else match MatchAt(s)
      case Some(m) => Replacement(dir, m.1) + Rewrite(s[m.0..], dir)
      case None => [s[0]] + Rewrite(s[1..], dir)
  }

  /** No match starts anywhere in `s`. */
  predicate NoMatch(s: String) {
    forall p :: 0 <= p < |s| ==> MatchAt(s[p..]).None?
  }

  /** A name without a match is left as it is. */
  lemma {:induction false} RewriteNoMatch(s: String, dir: String)
    requires NoMatch(s)
    ensures Rewrite(s, dir) == s
    decreases |s|
  {
    if s != [] {
      assert MatchAt(s[0..]).None?;
      assert s[0..] == s;
      forall p | 0 <= p < |s[1..]| ensures MatchAt(s[1..][p..]).None? {
        assert s[1..][p..] == s[p + 1..];
      }
      RewriteNoMatch(s[1..], dir);
    }
  }

  /** Two numbers joined by "_" and followed by a non-digit are the groups. */
  lemma GroupsOf(first: String, second: String, rest: String)
    requires IsDigits(first) && IsDigits(second)
    requires rest == [] || !IsAsciiDigit(rest[0])
    ensures Groups(first + (['_'] + (second + rest))) == Some((1 + |first| + |second|, second))
  {
    var back := ['_'] + (second + rest);
    var t := first + back;
    DigitRunOf(first, back);
    assert t[|first|] == '_';
    assert t[|first| + 1..] == second + rest;
    DigitRunOf(second, rest);
    assert t[|first| + 1..|first| + 1 + |second|] == (second + rest)[..|second|] == second;
  }

  /** What follows the first letter of a match: "pisode_", the first number,
      "_" and the second number. */
  lemma MatchAtHead(c: char, first: String, second: String, rest: String)
    requires c == 'E' || c == 'e'
    requires IsDigits(first) && IsDigits(second)
    requires rest == [] || !IsAsciiDigit(rest[0])
    ensures MatchAt([c] + ("pisode_" + (first + (['_'] + (second + rest))))) ==
      Some((9 + |first| + |second|, second))
  {
    var tail := first + (['_'] + (second + rest));
    GroupsOf(first, second, rest);
    MatchAtOf(c, tail, 1 + |first| + |second|, second);
  }

  /** The groups after "[Ee]pisode_" make the match. */
  lemma MatchAtOf(c: char, tail: String, n: nat, second: String)
    requires c == 'E' || c == 'e'
    requires Groups(tail) == Some((n, second))
    ensures MatchAt([c] + ("pisode_" + tail)) == Some((8 + n, second))
  {
    ConsAppendParts(c, "pisode_", tail);
  }

  /** A match at the front is replaced by "episode_{dir}_" and its second
      number, whatever its first letter and first number. */
  lemma RewriteHead(c: char, first: String, second: String, rest: String, dir: String)
    requires c == 'E' || c == 'e'
    requires IsDigits(first) && IsDigits(second)
    requires rest == [] || !IsAsciiDigit(rest[0])
    ensures Rewrite([c] + "pisode_" + first + "_" + second + rest, dir) ==
      Replacement(dir, second) + Rewrite(rest, dir)
  {
    var s := [c] + ("pisode_" + (first + (['_'] + (second + rest))));
    assert [c] + "pisode_" + first + "_" + second + rest == s;
    MatchAtHead(c, first, second, rest);
    assert s[9 + |first| + |second|..] == rest;
  }

  /** A name shorter than a match has none. */
  lemma ShortNoMatch(s: String)
    requires |s| < 10
    ensures NoMatch(s)
  {
    forall p | 0 <= p < |s| ensures MatchAt(s[p..]).None? {
      assert |s[p..]| < 10;
    }
  }

  /** The names the scrapers write, `episode_<n>_<i>.<ext>` with a short
      extension, are renamed to `episode_<dir>_<i>.<ext>`: the image keeps
      its index and its extension. */
  lemma RewriteImageName(n: String, i: String, ext: String, dir: String)
    requires IsDigits(n) && IsDigits(i) && |ext| < 9
    ensures Rewrite("episode_" + n + "_" + i + "." + ext, dir) == "episode_" + dir + "_" + i + "." + ext
  {
    var rest := "." + ext;
    ShortNoMatch(rest);
    RewriteNoMatch(rest, dir);
    RewriteHead('e', n, i, rest, dir);
    var e := "episode_";
    assert e == ['e'] + "pisode_";
    AppendAssoc(e + n + "_" + i, ".", ext);
    AppendAssoc(e + dir + "_" + i, ".", ext);
  }

  /** A rewritten name begins with a digit only if the name does. */
  lemma RewriteFirst(s: String, dir: String)
    requires s != [] && !IsAsciiDigit(s[0])
    ensures Rewrite(s, dir) != [] && !IsAsciiDigit(Rewrite(s, dir)[0])
  {
    if MatchAt(s).Some? {
      assert Rewrite(s, dir)[0] == Replacement(dir, MatchAt(s).value.1)[0] == 'e';
    }
  }

  /** No match can begin inside `w`, whatever follows it: each "e" in it is
      followed, inside `w`, by something other than "p". */
  predicate Inert(w: String) {
    forall i :: 0 <= i < |w| && w[i] == 'e' ==> i + 1 < |w| && w[i + 1] != 'p'
  }

  lemma InertFront(w: String)
    requires Inert(w) && w != []
    ensures w[0] != 'e' || (1 < |w| && w[1] != 'p')
  {
    if w[0] == 'e' {
      assert 0 < |w| && w[0] == 'e';
    }
  }

  /** A replacement is "e", "pisode_", the number, "_" and the second group. */
  lemma ReplacementLetters(dir: String, second: String)
    ensures Replacement(dir, second) == ['e'] + "pisode_" + dir + "_" + second
  {
    assert "episode_" == ['e'] + "pisode_";
  }

  /** A replacement begins with "ep". */
  lemma ReplacementHead(dir: String, second: String)
    ensures |Replacement(dir, second)| >= 8
    ensures Replacement(dir, second)[0] == 'e' && Replacement(dir, second)[1] == 'p'
  {
    assert Replacement(dir, second) == "episode_" + (dir + "_" + second);
  }

  /** A rewritten name that begins with an inert text comes from a name that
      begins with the same text, since a replacement begins with "ep". */
  lemma {:induction false} PrefixBack(u: String, w: String, dir: String)
    requires Inert(w) && |w| <= |Rewrite(u, dir)| && Rewrite(u, dir)[..|w|] == w
    ensures |w| <= |u| && u[..|w|] == w
    decreases |w|
  {
    if w != [] {
      var r := Rewrite(u, dir);
      assert r[0] == w[0];
      if MatchAt(u).Some? {
        var head := Replacement(dir, MatchAt(u).value.1);
        ReplacementHead(dir, MatchAt(u).value.1);
        assert r == head + Rewrite(u[MatchAt(u).value.0..], dir);
        InertFront(w);
        assert false;
      }
      var rest := Rewrite(u[1..], dir);
      assert r == [u[0]] + rest;
      assert rest[..|w| - 1] == w[1..];
      assert Inert(w[1..]) by {
        forall i | 0 <= i < |w[1..]| && w[1..][i] == 'e' ensures i + 1 < |w[1..]| && w[1..][i + 1] != 'p' {
          assert w[1..][i] == w[i + 1];
          assert i + 2 < |w| && w[i + 2] != 'p';
          assert w[1..][i + 1] == w[i + 2];
        }
      }
      PrefixBack(u[1..], w[1..], dir);
    }
  }

  /** The front of a match after its first letter: "pisode_", `k` digits,
      "_" and a digit. */
  predicate Shaped(w: String, k: nat) {
    0 < k && |w| == k + 9 && w[..7] == "pisode_" && AllDigits(w[7..7 + k])
    && w[7 + k] == '_' && IsAsciiDigit(w[8 + k])
  }

  /** The groups are there exactly when a run of digits, a "_" and a digit
      begin the text. */
  lemma GroupsShape(t: String) returns (k: nat)
    requires Groups(t).Some?
    ensures 0 < k && k + 1 < |t| && AllDigits(t[..k]) && t[k] == '_' && IsAsciiDigit(t[k + 1])
  {
    k := DigitRun(t);
    assert DigitRun(t[k + 1..]) > 0;
  }

  lemma GroupsSome(t: String, k: nat)
    requires 0 < k && k + 1 < |t| && AllDigits(t[..k]) && t[k] == '_' && IsAsciiDigit(t[k + 1])
    ensures Groups(t).Some?
  {
    DigitRunOf(t[..k], t[k..]);
    assert t[..k] + t[k..] == t;
    assert t[k + 1..][0] == t[k + 1];
  }

  /** A match at the front of `[c] + x` is shaped. */
  lemma MatchShape(c: char, x: String) returns (k: nat)
    requires MatchAt([c] + x).Some?
    ensures c == 'E' || c == 'e'
    ensures k + 9 <= |x| && Shaped(x[..k + 9], k)
  {
    var t := [c] + x;
    assert t[1..8] == x[..7] && t[8..] == x[7..];
    k := GroupsShape(x[7..]);
    var w := x[..k + 9];
    assert w[..7] == x[..7];
    assert w[7..7 + k] == x[7..][..k];
  }

  /** A name whose first letter is E or e and which goes on shaped matches. */
  lemma MatchFromShape(s: String, k: nat)
    requires s != [] && (s[0] == 'E' || s[0] == 'e')
    requires k + 9 <= |s[1..]| && Shaped(s[1..][..k + 9], k)
    ensures MatchAt(s).Some?
  {
    var w := s[1..][..k + 9];
    assert s[1..8] == w[..7];
    assert s[8..][..k] == w[7..7 + k];
    assert s[8..][k] == w[7 + k] && s[8..][k + 1] == w[8 + k];
    GroupsSome(s[8..], k);
  }

  /** A shaped text is inert. */
  lemma HeadInert(w: String, k: nat)
    requires Shaped(w, k)
    ensures Inert(w)
  {
    forall i | 0 <= i < |w| && w[i] == 'e' ensures i + 1 < |w| && w[i + 1] != 'p' {
      if i < 7 {
        assert w[i] == "pisode_"[i];
        assert w[6] == "pisode_"[6];
      }
    }
  }

  /** Rewriting cannot make a match begin where there was none: the next
      text is either copied or starts with a replacement. */
  lemma NoNewMatch(s: String, dir: String)
    requires s != [] && MatchAt(s).None?
    ensures MatchAt([s[0]] + Rewrite(s[1..], dir)).None?
  {
    var x := Rewrite(s[1..], dir);
    if MatchAt([s[0]] + x).Some? {
      var k := MatchShape(s[0], x);
      var w := x[..k + 9];
      HeadInert(w, k);
      PrefixBack(s[1..], w, dir);
      MatchFromShape(s, k);
      assert false;
    }
  }

  /** Renaming a file twice for the same directory number is renaming it
      once: every replacement is itself a match that rewrites to itself, and
      no new match appears. */
  lemma {:induction false} RewriteIdempotent(s: String, dir: String)
    requires IsDigits(dir)
    ensures Rewrite(Rewrite(s, dir), dir) == Rewrite(s, dir)
    decreases |s|
  {
    if s != [] {
      match MatchAt(s)
      case Some(m) =>
        var rest := s[m.0..];
        var t := Rewrite(rest, dir);
        RewriteIdempotent(rest, dir);
        if rest != [] {
          RewriteFirst(rest, dir);
        }
        ReplacementLetters(dir, m.1);
        RewriteHead('e', dir, m.1, t, dir);
      case None =>
        var t := Rewrite(s[1..], dir);
        RewriteIdempotent(s[1..], dir);
        NoNewMatch(s, dir);
        assert ([s[0]] + t)[1..] == t;
    }
  }

  // ---------------------------------------------------------------------
  // The file system under the comic directory

  type Blob = seq<bv8>

  /** An entry: a file with its bytes, or a directory with its entries. */
  datatype Node = File(data: Blob) | Dir(children: map<String, Node>)

  /** The entries of a directory by name. */
  type Tree = map<String, Node>

  /** A path below the comic directory, one name per level. */
  type Path = seq<String>

  /** The entry at `p`, if there is one. */
  function Get(t: Tree, p: Path): (n: Option<Node>)
    ensures n.Some? ==> p != []
    decreases |p|
  {
    if p == [] || p[0] !in t then None
    else if |p| == 1 then Some(t[p[0]])
    else match t[p[0]]
      case File(_) => None
      case Dir(c) => Get(c, p[1..])
  }

  /** `t` with `n` stored at `p`, whose parent must be a directory. */
  function Put(t: Tree, p: Path, n: Node): Option<Tree>
    decreases |p|
  {
    if p == [] then None
    else if |p| == 1 then Some(t[p[0] := n])
    else if p[0] in t && t[p[0]].Dir? then
      match Put(t[p[0]].children, p[1..], n)
      case None => None
      case Some(c) => Some(t[p[0] := Dir(c)])
    else None
  }

  /** `t` without the entry at `p`. */
  function Delete(t: Tree, p: Path): Tree
    decreases |p|
  {
    if p == [] then t
    else if |p| == 1 then t - {p[0]}
    else if p[0] in t && t[p[0]].Dir? then t[p[0] := Dir(Delete(t[p[0]].children, p[1..]))]
    else t
  }

  /** `os.rename(src, dst)` of the entry `n` found at `src`, where `dst` is not
      a directory: a file replaces a file, a directory cannot replace a file
      or go inside itself, and the parent of `dst` must exist. When the
      rename fails, the copying fallback of `shutil.move` fails too. */
  function Rename(t: Tree, src: Path, dst: Path, n: Node): Option<Tree> {
    if n.Dir? && (Get(t, dst).Some? || src < dst) then None
    else Put(Delete(t, src), dst, n)
  }

  /** `shutil.move(src, dst)`: a move onto an existing directory puts the
      entry inside it under its own name, unless that name is taken (or the
      directory is the entry itself, which is then left where it is). */
  function Move(t: Tree, src: Path, dst: Path): Option<Tree> {
    match Get(t, src)
    case None => None
    case Some(n) =>
      var target := Get(t, dst);
      if target.Some? && target.value.Dir? then
        if src == dst then Some(t)
        else
          var inside := dst + [src[|src| - 1]];
          if Get(t, inside).Some? then None else Rename(t, src, inside, n)
      else Rename(t, src, dst, n)
  }

  /** `os.makedirs(name, exist_ok=True)` for an entry of the comic directory:
      an existing directory is kept, an existing file is an error. */
  function MakeDirs(t: Tree, name: String): Option<Tree> {
    if name !in t then Some(t[name := Dir(map[])])
    else if t[name].Dir? then Some(t)
    else None
  }

  /** `shutil.rmtree(name, ignore_errors=True)` for an entry of the comic
      directory: only a directory is removed. */
  function RmTree(t: Tree, name: String): Tree {
    if name in t && t[name].Dir? then t - {name} else t
  }

  /** Whether a run went through, and the entries it leaves. */
  datatype Run = Run(ok: bool, entries: Tree)

  /** The directory a directory is first moved to: `temp_<new>`. */
  function TempName(newName: String): (temp: String)
    ensures temp != newName
  {
    "temp_" + newName
  }

  /** After the first two steps of a renaming: the entries left by the step
      that failed, or the entries and the contents of the temporary
      directory that `os.listdir` lists. */
  datatype Stage = Failed(at: Tree) | Ready(at: Tree, listed: Tree)

  /** Moving the old directory to the temporary name and creating the new
      one. */
  function Prepare(t: Tree, oldName: String, newName: String): Stage {
    var temp := TempName(newName);
    match Move(t, [oldName], [temp])
    case None => Failed(t)
    case Some(t1) =>
      match MakeDirs(t1, newName)
      case None => Failed(t1)
      case Some(t2) =>
        if temp in t2 && t2[temp].Dir? then Ready(t2, t2[temp].children) else Failed(t2)
  }

  /** Moving the listed entries of the temporary directory into the new one,
      each under its rewritten name, in listing order, up to the first
      failure. */
  function MoveFiles(t: Tree, temp: String, order: seq<String>, newName: String): Run
    decreases |order|
  {
    if order == [] then Run(true, t)
    else match Move(t, [temp, order[0]], [newName, Rewrite(order[0], newName)])
      case None => Run(false, t)
      case Some(t1) => MoveFiles(t1, temp, order[1..], newName)
  }

  /** One turn of the renaming loop, `order` being the listing of the
      temporary directory. */
  function PairResult(t: Tree, oldName: String, newName: String, order: seq<String>): Run {
    match Prepare(t, oldName, newName)
    case Failed(t1) => Run(false, t1)
    case Ready(t2, _) =>
      var r := MoveFiles(t2, TempName(newName), order, newName);
      if r.ok then Run(true, RmTree(r.entries, TempName(newName))) else r
  }

  /** The turns of the renaming loop in order, up to the first failure. */
  function RunPairs(t: Tree, pairs: seq<(String, String)>, orders: seq<seq<String>>): Run
    requires |orders| == |pairs|
    decreases |pairs|
  {
    if pairs == [] then Run(true, t)
    else
      var n := |pairs| - 1;
      var r := RunPairs(t, pairs[..n], orders[..n]);
      if r.ok then PairResult(r.entries, pairs[n].0, pairs[n].1, orders[n]) else r
  }

  /** `dir_mapping.items()`: each name with its new name, in insertion order. */
  function Pairs(dirList: seq<String>): (pairs: seq<(String, String)>)
    ensures |pairs| == |dirList|
    ensures forall i :: 0 <= i < |dirList| ==> pairs[i] == (dirList[i], NatToString(i + 1))
  {
    seq(|dirList|, i requires 0 <= i < |dirList| => (dirList[i], NatToString(i + 1)))
  }

  /** `os.path.isdir` for an entry of the comic directory. */
  function IsDirIn(t: Tree): String -> bool {
    d => d in t && t[d].Dir?
  }

  /** `names` lists the entries of `t` once each, in some order. */
  ghost predicate Lists(names: seq<String>, t: Tree) {
    Distinct(names) && forall x :: x in names <==> x in t
  }

  /** `os.listdir`: the names of the entries, in an order the file system
      chooses. */
  method ListNames(t: Tree) returns (names: seq<String>)
    ensures Lists(names, t)
  {
    names := [];
    var rest := t.Keys;
    while rest != {}
      invariant rest <= t.Keys
      invariant Distinct(names)
      invariant forall x :: x in names <==> x in t && x !in rest
      decreases rest
    {
      var x :| x in rest;
      names := names + [x];
      rest := rest - {x};
    }
  }

  // ---------------------------------------------------------------------
  // What one turn does to a fresh name

  /** Every entry of `m` is a file. */
  predicate AllFiles(m: Tree) {
    forall x :: x in m ==> m[x].File?
  }

  /** The new directory after the files of `src` named in `order` are moved
      into `done` one by one, each under its rewritten name. */
  function Renamed(done: Tree, src: Tree, order: seq<String>, newName: String): Tree
    requires forall x :: x in order ==> x in src
    decreases |order|
  {
    if order == [] then done
    else Renamed(done[Rewrite(order[0], newName) := src[order[0]]], src, order[1..], newName)
  }

  /** Moving one file of the temporary directory into the new directory,
      which holds only files. */
  lemma MoveFileStep(t: Tree, temp: String, newName: String, f: String, rest: Tree, done: Tree)
    requires temp != newName
    requires temp in t && t[temp] == Dir(rest) && newName in t && t[newName] == Dir(done)
    requires f in rest && rest[f].File? && AllFiles(done)
    ensures Move(t, [temp, f], [newName, Rewrite(f, newName)]) ==
      Some(t[temp := Dir(rest - {f})][newName := Dir(done[Rewrite(f, newName) := rest[f]])])
  {
    var g := Rewrite(f, newName);
    assert Get(t, [temp, f]) == Some(rest[f]) by {
      assert [temp, f][1..] == [f];
    }
    assert Get(t, [newName, g]) == if g in done then Some(done[g]) else None by {
      assert [newName, g][1..] == [g];
    }
    var t1 := t[temp := Dir(rest - {f})];
    assert Delete(t, [temp, f]) == t1 by {
      assert [temp, f][1..] == [f];
    }
    assert Put(t1, [newName, g], rest[f]) == Some(t1[newName := Dir(done[g := rest[f]])]) by {
      assert [newName, g][1..] == [g];
    }
  }

  /** Moving all the listed files of the temporary directory succeeds, and
      apart from the temporary directory only the new directory changes. */
  lemma {:induction false} MoveFilesAll(t: Tree, temp: String, newName: String, order: seq<String>,
                                        src: Tree, rest: Tree, done: Tree)
    requires temp != newName
    requires temp in t && t[temp] == Dir(rest) && newName in t && t[newName] == Dir(done)
    requires AllFiles(rest) && AllFiles(done) && Distinct(order)
    requires forall x :: x in order ==> x in rest && x in src && rest[x] == src[x]
    ensures MoveFiles(t, temp, order, newName).ok
    ensures temp in MoveFiles(t, temp, order, newName).entries
    ensures MoveFiles(t, temp, order, newName).entries[temp].Dir?
    ensures MoveFiles(t, temp, order, newName).entries - {temp} ==
      (t - {temp})[newName := Dir(Renamed(done, src, order, newName))]
    decreases |order|
  {
    if order == [] {
      assert t[newName := Dir(done)] == t;
    } else {
      var f := order[0];
      var g := Rewrite(f, newName);
      MoveFileStep(t, temp, newName, f, rest, done);
      var t1 := t[temp := Dir(rest - {f})][newName := Dir(done[g := rest[f]])];
      DistinctTail(order);
      MoveFilesAll(t1, temp, newName, order[1..], src, rest - {f}, done[g := src[f]]);
      assert MoveFiles(t, temp, order, newName) == MoveFiles(t1, temp, order[1..], newName);
      assert Renamed(done, src, order, newName) == Renamed(done[g := src[f]], src, order[1..], newName);
      ReplaceAround(t, temp, newName, Dir(rest - {f}), Dir(done[g := src[f]]), Dir(Renamed(done, src, order, newName)));
    }
  }

  /** Updating the new directory twice around the temporary one, then
      dropping the temporary one, is one update of the new directory. */
  lemma ReplaceAround(t: Tree, temp: String, newName: String, a: Node, b: Node, c: Node)
    requires temp != newName
    ensures (t[temp := a][newName := b] - {temp})[newName := c] == (t - {temp})[newName := c]
  {
  }

  /** The main property of one turn: when the old entry is a directory of
      files and neither the new name (other than the old name itself) nor
      the temporary name is taken, the turn goes through, the old and the
      temporary directories are gone, and the new directory holds the old
      one's files under their rewritten names; nothing else changes. */
  lemma PairMovesFiles(t: Tree, oldName: String, newName: String, order: seq<String>)
    requires oldName in t && t[oldName].Dir? && AllFiles(t[oldName].children)
    requires newName !in t || newName == oldName
    requires TempName(newName) !in t
    ensures Prepare(t, oldName, newName).Ready?
    ensures Prepare(t, oldName, newName).listed == t[oldName].children
    ensures Lists(order, t[oldName].children) ==>
      PairResult(t, oldName, newName, order) ==
        Run(true, (t - {oldName})[newName := Dir(Renamed(map[], t[oldName].children, order, newName))])
  {
    var temp := TempName(newName);
    var c := t[oldName].children;
    assert Move(t, [oldName], [temp]) == Some((t - {oldName})[temp := Dir(c)]) by {
      assert Get(t, [oldName]) == Some(Dir(c));
      assert Get(t, [temp]) == None;
      assert !([oldName] < [temp]);
      assert Delete(t, [oldName]) == t - {oldName};
    }
    var t1 := (t - {oldName})[temp := Dir(c)];
    var t2 := t1[newName := Dir(map[])];
    assert MakeDirs(t1, newName) == Some(t2);
    assert Prepare(t, oldName, newName) == Ready(t2, c);
    if Lists(order, c) {
      MoveFilesAll(t2, temp, newName, order, c, c, map[]);
      var r := MoveFiles(t2, temp, order, newName);
      assert PairResult(t, oldName, newName, order) == Run(true, r.entries - {temp});
      ReplaceAround(t - {oldName}, temp, newName, Dir(c), Dir(map[]), Dir(Renamed(map[], c, order, newName)));
      assert (t - {oldName}) - {temp} == t - {oldName};
    }
  }

  /** Which names the new directory ends up with: those it had and the
      rewritten listed names. */
  lemma {:induction false} RenamedKeys(done: Tree, src: Tree, order: seq<String>, newName: String)
    requires forall x :: x in order ==> x in src
    ensures forall g :: g in Renamed(done, src, order, newName) <==>
      g in done || exists i :: 0 <= i < |order| && Rewrite(order[i], newName) == g
    decreases |order|
  {
    if order != [] {
      var done1 := done[Rewrite(order[0], newName) := src[order[0]]];
      RenamedKeys(done1, src, order[1..], newName);
      forall g ensures g in Renamed(done, src, order, newName) <==>
        g in done || exists i :: 0 <= i < |order| && Rewrite(order[i], newName) == g
      {
        if i :| 0 <= i < |order| && Rewrite(order[i], newName) == g {
          if i > 0 {
            assert order[1..][i - 1] == order[i];
          }
        }
        if i :| 0 <= i < |order[1..]| && Rewrite(order[1..][i], newName) == g {
          assert order[i + 1] == order[1..][i];
        }
      }
    }
  }

  /** A name that no listed file is rewritten to keeps its entry. */
  lemma {:induction false} RenamedUntouched(done: Tree, src: Tree, order: seq<String>, newName: String, g: String)
    requires forall x :: x in order ==> x in src
    requires g in done && forall i :: 0 <= i < |order| ==> Rewrite(order[i], newName) != g
    ensures g in Renamed(done, src, order, newName) && Renamed(done, src, order, newName)[g] == done[g]
    decreases |order|
  {
    if order != [] {
      forall i | 0 <= i < |order[1..]| ensures Rewrite(order[1..][i], newName) != g {
        assert order[1..][i] == order[i + 1];
      }
      RenamedUntouched(done[Rewrite(order[0], newName) := src[order[0]]], src, order[1..], newName, g);
    }
  }

  /** When two listed files share a rewritten name, the one moved last wins:
      the entry under a rewritten name is the content of the last listed file
      rewritten to it. */
  lemma {:induction false} RenamedLast(done: Tree, src: Tree, order: seq<String>, newName: String, i: nat)
    returns (j: nat)
    requires forall x :: x in order ==> x in src
    requires i < |order|
    ensures i <= j < |order| && Rewrite(order[j], newName) == Rewrite(order[i], newName)
    ensures forall k :: j < k < |order| ==> Rewrite(order[k], newName) != Rewrite(order[i], newName)
    ensures Rewrite(order[i], newName) in Renamed(done, src, order, newName)
    ensures Renamed(done, src, order, newName)[Rewrite(order[i], newName)] == src[order[j]]
    decreases |order|
  {
    var g := Rewrite(order[i], newName);
    var done1 := done[Rewrite(order[0], newName) := src[order[0]]];
    if k :| 1 <= k < |order| && i <= k && Rewrite(order[k], newName) == g {
      assert order[1..][k - 1] == order[k];
      var j1 := RenamedLast(done1, src, order[1..], newName, k - 1);
      j := j1 + 1;
      assert order[j] == order[1..][j1];
      forall k' | j < k' < |order| ensures Rewrite(order[k'], newName) != g {
        assert order[k'] == order[1..][k' - 1];
      }
    } else {
      j := i;
      forall k' | 0 <= k' < |order[1..]| ensures Rewrite(order[1..][k'], newName) != g {
        assert order[1..][k'] == order[k' + 1];
      }
      RenamedUntouched(done1, src, order[1..], newName, g);
    }
  }

  /** When the listed files have distinct rewritten names, each keeps its
      content under its new name. */
  lemma RenamedInjective(done: Tree, src: Tree, order: seq<String>, newName: String, i: nat)
    requires forall x :: x in order ==> x in src
    requires forall a, b :: 0 <= a < b < |order| ==> Rewrite(order[a], newName) != Rewrite(order[b], newName)
    requires i < |order|
    ensures Rewrite(order[i], newName) in Renamed(done, src, order, newName)
    ensures Renamed(done, src, order, newName)[Rewrite(order[i], newName)] == src[order[i]]
  {
    var j := RenamedLast(done, src, order, newName, i);
  }

  /** Once a turn fails, the turns after it do not run. */
  lemma {:induction false} RunPairsStops(t: Tree, pairs: seq<(String, String)>, orders: seq<seq<String>>, k: nat)
    requires |orders| == |pairs| && k <= |pairs|
    requires !RunPairs(t, pairs[..k], orders[..k]).ok
    ensures RunPairs(t, pairs, orders) == RunPairs(t, pairs[..k], orders[..k])
    decreases |pairs|
  {
    if k < |pairs| {
      var n := |pairs| - 1;
      assert pairs[..n][..k] == pairs[..k] && orders[..n][..k] == orders[..k];
      RunPairsStops(t, pairs[..n], orders[..n], k);
    } else {
      assert pairs[..k] == pairs && orders[..k] == orders;
    }
  }

  /** The comic directory, whose entries the renaming changes in place. */
  class FileSystem {
    var entries: Tree

    constructor (initial: Tree)
      ensures entries == initial
    {
      entries := initial;
    }

    /** One turn of the loop: move `oldName` to `temp_<newName>`, create
        `newName`, move each file across under its rewritten name, then remove
        the temporary directory. A failing step ends the turn with `ok` false
        and the entries as that step found them. */
    method RenamePair(oldName: String, newName: String) returns (ok: bool, order: seq<String>)
      modifies this
      ensures Run(ok, entries) == PairResult(old(entries), oldName, newName, order)
      ensures Prepare(old(entries), oldName, newName).Ready? ==>
        Lists(order, Prepare(old(entries), oldName, newName).listed)
    {
      var temp := TempName(newName);
      order := [];
      var moved := Move(entries, [oldName], [temp]);
      if moved.None? {
        return false, order;
      }
      entries := moved.value;
      var made := MakeDirs(entries, newName);
      if made.None? {
        return false, order;
      }
      entries := made.value;
      if !(temp in entries && entries[temp].Dir?) {
        return false, order;
      }
      order := ListNames(entries[temp].children);
      ghost var start := entries;
      for i := 0 to |order|
        invariant MoveFiles(entries, temp, order[i..], newName) == MoveFiles(start, temp, order, newName)
      {
        var step := Move(entries, [temp, order[i]], [newName, Rewrite(order[i], newName)]);
        if step.None? {
          return false, order;
        }
        entries := step.value;
        assert order[i..][1..] == order[i + 1..];
      }
      entries := RmTree(entries, temp);
      ok := true;
    }

    /** The renaming loop over `dir_mapping.items()`, whose order is that of
        `dirList` since its names are distinct. */
    method RenameAll(dirList: seq<String>, mapping: map<String, String>)
      returns (orders: seq<seq<String>>, failed: bool)
      requires Distinct(dirList) && mapping == Renumbering(dirList)
      modifies this
      ensures |orders| <= |dirList| && (failed || |orders| == |dirList|)
      ensures Run(!failed, entries) == RunPairs(old(entries), Pairs(dirList)[..|orders|], orders)
      ensures failed ==> 0 < |orders| && RunPairs(old(entries), Pairs(dirList)[..|orders| - 1], orders[..|orders| - 1]).ok
    {
      ghost var start := entries;
      orders := [];
      failed := false;
      var i := 0;
      while i < |dirList|
        invariant 0 <= i <= |dirList| && |orders| == i
        invariant RunPairs(start, Pairs(dirList)[..i], orders) == Run(true, entries)
      {
        var ok, order := Turn(start, dirList, mapping, i, orders);
        orders := orders + [order];
        if !ok {
          failed := true;
          return;
        }
        i := i + 1;
      }
    }

    /** One turn of the loop: renaming the next directory is the next step
        of the run so far. */
    method Turn(ghost start: Tree, dirList: seq<String>, mapping: map<String, String>,
                i: nat, ghost orders: seq<seq<String>>) returns (ok: bool, order: seq<String>)
      requires Distinct(dirList) && mapping == Renumbering(dirList)
      requires i == |orders| < |dirList|
      requires RunPairs(start, Pairs(dirList)[..|orders|], orders) == Run(true, entries)
      modifies this
      ensures RunPairs(start, Pairs(dirList)[..|orders| + 1], orders + [order]) == Run(ok, entries)
      ensures (orders + [order])[..|orders|] == orders
    {
      RenumberingHits(dirList, i + 1);
      TakeTake(Pairs(dirList), i, i + 1);
      ok, order := RenamePair(dirList[i], mapping[dirList[i]]);
      TakeAppend(orders, [order]);
    }

    /** `rename_directories_and_images`: list the directories, sort them,
        number them, and rename them one by one; the first failure ends the
        run and is reported in `failed` rather than raised. */
    method RenameDirectoriesAndImages() returns (listing: seq<String>, dirList: seq<String>,
                                               orders: seq<seq<String>>, failed: bool)
      modifies this
      ensures Lists(listing, old(entries))
      ensures dirList == SortDirs(Filter(listing, IsDirIn(old(entries))))
      ensures |orders| <= |dirList| && (failed || |orders| == |dirList|)
      ensures Run(!failed, entries) == RunPairs(old(entries), Pairs(dirList)[..|orders|], orders)
      ensures failed ==> 0 < |orders| && RunPairs(old(entries), Pairs(dirList)[..|orders| - 1], orders[..|orders| - 1]).ok
    {
      listing := ListNames(entries);
      var dirs := SelectDirs(listing, entries);
      dirList := SortDirs(dirs);
      assert Distinct(dirList) by {
        FilterDistinct(listing, IsDirIn(entries));
        SortByPermutes(dirs, DirKeyOf, KeyLe);
        PermutationDistinct(dirs, dirList);
      }
      var mapping := BuildMapping(dirList);
      orders, failed := RenameAll(dirList, mapping);
    }
  }

  /** `[d for d in listing if os.path.isdir(d)]`. */
  method SelectDirs(listing: seq<String>, t: Tree) returns (dirs: seq<String>)
    ensures dirs == Filter(listing, IsDirIn(t))
  {
    dirs := [];
    for i := 0 to |listing|
      invariant dirs == Filter(listing[..i], IsDirIn(t))
    {
      var d := listing[i];
      SplitSnoc(listing[..i], d, IsDirIn(t));
      if d in t && t[d].Dir? {
        dirs := dirs + [d];
      }
      assert listing[..i + 1] == listing[..i] + [d];
    }
    TakeAll(listing);
  }
}
