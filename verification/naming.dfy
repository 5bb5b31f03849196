/** Image file naming shared by the scrapers: `episode_{n}_{i + 1}.{ext}` with
    plain numbers, and the variant that pads ordinals to three digits and keeps
    only allow-listed extensions. */
module Naming {
  import opened Seqs
  import opened Text

  /** `f"{n}_{i + 1}.{ext}"`: episode number, 1-based image position and
      extension. */
  function NameTail(n: nat, i: nat, ext: String): String {
    NatToString(n) + "_" + NatToString(i + 1) + "." + ext
  }

  /** `NameTail` regrouped around its first "_": the episode number, then the
      rest. */
  lemma NameTailSplit(n: nat, i: nat, e: String) returns (x: String)
    ensures x == NatToString(i + 1) + ("." + e)
    ensures NameTail(n, i, e) == NatToString(n) + ("_" + x)
  {
    var a, b := NatToString(n), NatToString(i + 1);
    x := b + ("." + e);
    AppendAssoc(a + "_" + b, ".", e);
    AppendAssoc(a + "_", b, "." + e);
    AppendAssoc(a, "_", x);
  }

  /** The name determines the episode, the position and the extension. */
  lemma NameTailInjective(n: nat, i: nat, e: String, m: nat, j: nat, f: String)
    requires NameTail(n, i, e) == NameTail(m, j, f)
    ensures n == m && i == j && e == f
  {
    var x := NameTailSplit(n, i, e);
    var y := NameTailSplit(m, j, f);
    DigitPrefixUnique(NatToString(n), "_" + x, NatToString(m), "_" + y);
    NatToStringInjective(n, m);
    CancelPrefix("_", x, y);
    DigitPrefixUnique(NatToString(i + 1), "." + e, NatToString(j + 1), "." + f);
    NatToStringInjective(i + 1, j + 1);
    CancelPrefix(".", e, f);
  }

  /** The extensions kept as they are: .jpg, .jpeg, .png, .gif and .webp. */
  predicate IsAllowedExtension(e: String) {
    e == ".jpg" || e == ".jpeg" || e == ".png" || e == ".gif" || e == ".webp"
  }

  /** An allowed extension begins with its dot. */
  lemma AllowedExtensionShape(e: String)
    requires IsAllowedExtension(e)
    ensures |e| >= 2 && e[0] == '.' && !IsAsciiDigit(e[0])
  {
  }

  /** `ext` when it is allowed, ".jpg" in place of anything else. */
  function AllowedOrJpg(ext: String): (e: String)
    ensures IsAllowedExtension(e)
    ensures IsAllowedExtension(ext) ==> e == ext
    ensures !IsAllowedExtension(ext) ==> e == ".jpg"
  {
    if IsAllowedExtension(ext) then ext else ".jpg"
  }

  /** `f"episode_{episode:03d}_{position:03d}{ext}"`. */
  function PaddedImageName(episode: nat, position: nat, ext: String): String {
    "episode_" + Pad3(episode) + "_" + Pad3(position) + ext
  }

  /** Within one episode, the name determines the position and the extension. */
  lemma PaddedImageNameInjective(episode: nat, p: nat, q: nat, e: String, f: String)
    requires IsAllowedExtension(e) && IsAllowedExtension(f)
    requires PaddedImageName(episode, p, e) == PaddedImageName(episode, q, f)
    ensures p == q && e == f
  {
    var head := "episode_" + Pad3(episode) + "_";
    PaddedImageNameSplit(episode, p, e);
    PaddedImageNameSplit(episode, q, f);
    CancelPrefix(head, Pad3(p) + e, Pad3(q) + f);
    AllowedExtensionShape(e);
    AllowedExtensionShape(f);
    DigitPrefixUnique(Pad3(p), e, Pad3(q), f);
    Pad3Injective(p, q);
  }

  lemma PaddedImageNameSplit(episode: nat, p: nat, e: String)
    ensures PaddedImageName(episode, p, e) == ("episode_" + Pad3(episode) + "_") + (Pad3(p) + e)
  {
    AppendAssoc("episode_" + Pad3(episode) + "_", Pad3(p), e);
  }
}
