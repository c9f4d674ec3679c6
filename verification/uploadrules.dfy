/** The acceptance rules both upload endpoints share: the image whitelist, the 20 MiB bound
    and the shape of the generated file name. */
module UploadRules {
  import opened Base
  import Decimal

  /** The size bound of both endpoints, in bytes. */
  const MaxFileSize: nat := 20 * 1024 * 1024

  /** The MIME types both endpoints accept, in the order the source lists them. */
  const ImageTypes: seq<string> :=
    ["image/jpeg", "image/jpg", "image/png", "image/gif", "image/webp", "image/svg+xml"]

  /** `allowedMimeTypes.includes(mime)`. */
  predicate IsImageType(mime: string) {
    mime in ImageTypes
  }

  const InvalidType := "Invalid file type. Only image files are allowed."
  const NoFile := "No file uploaded"

  /** What `path.extname` returns: empty, or a dot followed by the extension. */
  predicate IsExtension(ext: string) {
    ext == [] || ext[0] == '.'
  }

  /** The generated name `<Date.now()>-<Math.round(Math.random() * 1e9)><ext>`; the clock
      reading and the random integer are parameters. */
  function UniqueName(now: nat, nonce: nat, ext: string): (name: string)
    ensures |name| > |ext| && name[|name| - |ext|..] == ext
  {
    var name := Decimal.NatToDecimal(now) + "-" + Decimal.NatToDecimal(nonce) + ext;
    assert name[|name| - |ext|..] == ext;
    name
  }

  /** The three parts a generated name is built from. */
  datatype NameParts = NameParts(time: nat, nonce: nat, ext: string)

  /** Reads a generated name back: the digits before the first `-`, the digits after it, and
      the rest as the extension. */
  function ParseName(s: string): (r: Option<NameParts>)
    ensures r.Some? ==> |r.value.ext| < |s| && s[|s| - |r.value.ext|..] == r.value.ext
  {
    var i := Decimal.LeadingDigits(s);
    if i == 0 || i == |s| || s[i] != '-' then None
    else
      var rest := s[i + 1..];
      var j := Decimal.LeadingDigits(rest);
      if j == 0 then None
      else
        assert s[|s| - |rest[j..]|..] == rest[j..];
        Some(NameParts(Decimal.DigitsValue(s[..i]), Decimal.DigitsValue(rest[..j]), rest[j..]))
  }

  /** Every generated name reads back as the clock reading, the random integer and the
      extension it was made from. */
  lemma NameRoundTrip(now: nat, nonce: nat, ext: string)
    requires IsExtension(ext)
    ensures ParseName(UniqueName(now, nonce, ext)) == Some(NameParts(now, nonce, ext))
  {
    var a, b := Decimal.NatToDecimal(now), Decimal.NatToDecimal(nonce);
    var s := a + ("-" + b + ext);
    assert UniqueName(now, nonce, ext) == s;
    SplitName(a, b, ext);
    SameDigits(s[..|a|], a);
    SameDigits(s[|a| + 1..][..|b|], b);
    Decimal.DigitsOfNat(now);
    Decimal.DigitsOfNat(nonce);
  }

  /** Two non-empty digit runs joined by `-` and followed by an extension split back apart. */
  lemma SplitName(a: string, b: string, ext: string)
    requires |a| > 0 && Decimal.AllDigits(a)
    requires |b| > 0 && Decimal.AllDigits(b)
    requires IsExtension(ext)
    ensures var s := a + ("-" + b + ext);
      && |a| + 1 + |b| <= |s|
      && s[..|a|] == a && s[|a| + 1..][..|b|] == b && s[|a| + 1..][|b|..] == ext
      && ParseName(s) == Some(NameParts(
           Decimal.DigitsValue(s[..|a|]), Decimal.DigitsValue(s[|a| + 1..][..|b|]), s[|a| + 1..][|b|..]))
  {
    var tail := "-" + b + ext;
    var s := a + tail;
    Decimal.DigitRun(a, tail);
    assert tail[1..] == b + ext;
    Decimal.DigitRun(b, ext);
    ParseNameOf(s, |a|, |b|);
  }

  /** Equal digit strings have equal values. */
  lemma SameDigits(x: string, y: string)
    requires Decimal.AllDigits(x) && x == y
    ensures Decimal.DigitsValue(x) == Decimal.DigitsValue(y)
  {
  }

  /** `ParseName` once its two digit runs are known. */
  lemma ParseNameOf(s: string, i: nat, j: nat)
    requires 0 < i < |s| && Decimal.LeadingDigits(s) == i && s[i] == '-'
    requires 0 < j && Decimal.LeadingDigits(s[i + 1..]) == j
    ensures ParseName(s) ==
      Some(NameParts(Decimal.DigitsValue(s[..i]), Decimal.DigitsValue(s[i + 1..][..j]), s[i + 1..][j..]))
  {
  }

  /** Two uploads get the same name only when clock reading, random integer and extension
      all coincide. */
  lemma NamesDistinct(now: nat, nonce: nat, ext: string, now': nat, nonce': nat, ext': string)
    requires IsExtension(ext) && IsExtension(ext')
    requires (now, nonce, ext) != (now', nonce', ext')
    ensures UniqueName(now, nonce, ext) != UniqueName(now', nonce', ext')
  {
    NameRoundTrip(now, nonce, ext);
    NameRoundTrip(now', nonce', ext');
  }
}
