/**
 * Image fingerprints and the files named after them.
 *
 * The crawler fingerprints each image with an 8x8 average hash: 64 bits, one
 * per grid cell. The hashing library itself is outside this model; what the
 * crawler relies on is that a fingerprint is a fixed-width value compared by
 * exact equality, and that its text form (used in file names) is the value
 * written as 16 lower-case hexadecimal digits, most significant first.
 */
module Fingerprints {

  /** Raw bytes, as fetched from the network or read from disk. */
  newtype byte = x: int | 0 <= x < 256
  type Bytes = seq<byte>

  /** Number of hexadecimal digits in a fingerprint's text form (64 bits). */
  const HashDigits: nat := 16

  function Pow16(n: nat): (r: nat)
    ensures r >= 1
  {
    if n == 0 then 1 else 16 * Pow16(n - 1)
  }

  /** A 64-bit average hash: a value below 16^16 = 2^64. */
  type Fingerprint = h: nat | h < Pow16(HashDigits)

  function HexDigit(d: nat): char
    requires d < 16
  {
    if d < 10 then ('0' as int + d) as char else ('a' as int + d - 10) as char
  }

  function DigitValue(c: char): nat {
    if '0' <= c <= '9' then c as int - '0' as int
    else if 'a' <= c <= 'f' then c as int - 'a' as int + 10
    else 0
  }

  /** `n` written with exactly `width` hexadecimal digits, zero-padded on the left. */
  function Hex(n: nat, width: nat): (s: string)
    ensures |s| == width
  {
    if width == 0 then [] else Hex(n / 16, width - 1) + [HexDigit(n % 16)]
  }

  /** Reads a string of hexadecimal digits back as a number. */
  function ParseHex(s: string): nat {
    if s == [] then 0 else ParseHex(s[..|s| - 1]) * 16 + DigitValue(s[|s| - 1])
  }

  lemma {:induction false} ParseHexOfHex(n: nat, width: nat)
    requires n < Pow16(width)
    ensures ParseHex(Hex(n, width)) == n
  {
    if width > 0 {
      var s := Hex(n / 16, width - 1);
      var d := n % 16;
      assert n / 16 < Pow16(width - 1) by {
        assert n < 16 * Pow16(width - 1);
      }
      ParseHexOfHex(n / 16, width - 1);
      assert Hex(n, width) == s + [HexDigit(d)];
      assert (s + [HexDigit(d)])[..|s|] == s;
      assert DigitValue(HexDigit(d)) == d;
    }
  }

  /** The text form of a fingerprint, as it appears in file names. */
  function HashText(f: Fingerprint): (s: string)
    ensures |s| == HashDigits
    ensures forall i :: 0 <= i < |s| ==> '0' <= s[i] <= '9' || 'a' <= s[i] <= 'f'
    ensures ParseHex(s) == f
  {
    ParseHexOfHex(f, HashDigits);
    HexDigitsOnly(f, HashDigits);
    Hex(f, HashDigits)
  }

  lemma {:induction false} HexDigitsOnly(n: nat, width: nat)
    ensures forall i :: 0 <= i < width ==> '0' <= Hex(n, width)[i] <= '9' || 'a' <= Hex(n, width)[i] <= 'f'
  {
    if width > 0 {
      HexDigitsOnly(n / 16, width - 1);
    }
  }

  const ImagePrefix := "image_"
  const ImageSuffix := ".jpg"
  const TitlePrefix := "title_"
  const TitleSuffix := ".txt"

  /** Name of the image file saved for fingerprint `f`. */
  function ImageFileName(f: Fingerprint): string {
    ImagePrefix + HashText(f) + ImageSuffix
  }

  /** Name of the caption file saved for fingerprint `f`. */
  function TitleFileName(f: Fingerprint): string {
    TitlePrefix + HashText(f) + TitleSuffix
  }

  /** Distinct fingerprints never share an image file name or a caption file name. */
  lemma FileNamesInjective(f: Fingerprint, g: Fingerprint)
    ensures ImageFileName(f) == ImageFileName(g) ==> f == g
    ensures TitleFileName(f) == TitleFileName(g) ==> f == g
  {
    var hf, hg := HashText(f), HashText(g);
    if ImageFileName(f) == ImageFileName(g) {
      assert hf == ImageFileName(f)[|ImagePrefix|..|ImagePrefix| + HashDigits];
      assert hg == ImageFileName(g)[|ImagePrefix|..|ImagePrefix| + HashDigits];
    }
    if TitleFileName(f) == TitleFileName(g) {
      assert hf == TitleFileName(f)[|TitlePrefix|..|TitlePrefix| + HashDigits];
      assert hg == TitleFileName(g)[|TitlePrefix|..|TitlePrefix| + HashDigits];
    }
  }

  /** The two output directories: `images` and `titles` under the working directory. */
  datatype Dir = ImagesDir | TitlesDir

  datatype Path = Path(dir: Dir, name: string)

  /** One file the crawler writes: the fetched bytes, or the one-line caption. */
  datatype FileWrite =
    | ImageFile(hash: Fingerprint, data: Bytes)
    | TitleFile(hash: Fingerprint, text: string)
  {
    /** Where the file goes: determined by the kind of file and its fingerprint alone. */
    function Target(): Path {
      match this
      case ImageFile(f, _) => Path(ImagesDir, ImageFileName(f))
      case TitleFile(f, _) => Path(TitlesDir, TitleFileName(f))
    }
  }

  /** Two writes to the same path are of the same kind and carry the same fingerprint. */
  lemma SamePathSameFingerprint(v: FileWrite, w: FileWrite)
    ensures v.Target() == w.Target() ==> v.hash == w.hash && v.ImageFile? == w.ImageFile?
  {
    FileNamesInjective(v.hash, w.hash);
  }
}
