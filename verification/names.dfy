/**
 * File-name handling of the image processor: the case-insensitive test that
 * decides whether a file is an image (the IMAGE_EXTENSIONS filter) and the
 * choice of the output format from the file name (getFormatName).
 */
module Names {

  /** Java's `toLowerCase` on one character, for the ASCII letters. */
  function LowerChar(c: char): char
  {
    if 'A' <= c <= 'Z' then (c as int + 32) as char else c
  }

  /** `toLowerCase` on a whole string: same length, each character lowered. */
  function Lower(s: string): (r: string)
    ensures |r| == |s|
    ensures forall i :: 0 <= i < |s| ==> r[i] == LowerChar(s[i])
  {
    seq(|s|, i requires 0 <= i < |s| => LowerChar(s[i]))
  }

  /** `s.endsWith(suffix)`. */
  predicate EndsWith(s: string, suffix: string)
  {
    |suffix| <= |s| && s[|s| - |suffix|..] == suffix
  }

  /** The list IMAGE_EXTENSIONS, in its declared order. */
  const ImageExtensions: seq<string> := [".jpg", ".jpeg", ".png", ".bmp", ".gif"]

  /** The four format names handed to the image writer. */
  const FormatNames: set<string> := {"jpg", "png", "bmp", "gif"}

  /**
   * A file is an image when its lowercased name ends with one of the listed
   * extensions; every listed extension is a dot and at least three letters.
   */
  predicate IsImageName(fileName: string): (r: bool)
    ensures r ==> |fileName| >= 4
  {
    exists ext :: ext in ImageExtensions && EndsWith(Lower(fileName), ext)
  }

  /**
   * The writer format chosen from a file name: the first matching suffix among
   * .jpg/.jpeg, .png, .bmp and .gif decides, and any other name falls back to jpg.
   */
  function FormatName(fileName: string): (r: string)
    ensures r in FormatNames
  {
    var name := Lower(fileName);
    if EndsWith(name, ".jpg") || EndsWith(name, ".jpeg") then "jpg"
    else if EndsWith(name, ".png") then "png"
    else if EndsWith(name, ".bmp") then "bmp"
    else if EndsWith(name, ".gif") then "gif"
    else "jpg"
  }

  /** The format an image extension stands for: the extension without its dot, jpeg read as jpg. */
  function ExtensionFormat(ext: string): string
    requires ext in ImageExtensions
  {
    if ext == ".jpeg" then "jpg" else ext[1..]
  }

  /** A suffix fixes the last two characters of the name it ends. */
  lemma LastTwo(name: string, suffix: string)
    requires |suffix| >= 2 && EndsWith(name, suffix)
    ensures name[|name| - 1] == suffix[|suffix| - 1] && name[|name| - 2] == suffix[|suffix| - 2]
  {
    assert name[|name| - |suffix|..][|suffix| - 1] == suffix[|suffix| - 1];
    assert name[|name| - |suffix|..][|suffix| - 2] == suffix[|suffix| - 2];
  }

  /**
   * For every image name the format is the one its own extension stands for,
   * so the jpg fallback of FormatName is never taken for a file the walk submits.
   */
  lemma FormatMatchesExtension(fileName: string, ext: string)
    requires ext in ImageExtensions && EndsWith(Lower(fileName), ext)
    ensures IsImageName(fileName) && FormatName(fileName) == ExtensionFormat(ext)
  {
    var name := Lower(fileName);
    LastTwo(name, ext);
    if ext == ".jpg" || ext == ".jpeg" {
    } else if ext == ".png" {
      assert !EndsWith(name, ".jpg") by { if EndsWith(name, ".jpg") { LastTwo(name, ".jpg"); } }
      assert !EndsWith(name, ".jpeg") by { if EndsWith(name, ".jpeg") { LastTwo(name, ".jpeg"); } }
    } else if ext == ".bmp" {
      assert !EndsWith(name, ".jpg") by { if EndsWith(name, ".jpg") { LastTwo(name, ".jpg"); } }
      assert !EndsWith(name, ".jpeg") by { if EndsWith(name, ".jpeg") { LastTwo(name, ".jpeg"); } }
      assert !EndsWith(name, ".png") by { if EndsWith(name, ".png") { LastTwo(name, ".png"); } }
    } else {
      assert ext == ".gif";
      assert !EndsWith(name, ".jpg") by { if EndsWith(name, ".jpg") { LastTwo(name, ".jpg"); } }
      assert !EndsWith(name, ".jpeg") by { if EndsWith(name, ".jpeg") { LastTwo(name, ".jpeg"); } }
      assert !EndsWith(name, ".png") by { if EndsWith(name, ".png") { LastTwo(name, ".png"); } }
      assert !EndsWith(name, ".bmp") by { if EndsWith(name, ".bmp") { LastTwo(name, ".bmp"); } }
    }
  }

  /** The suffix table of FormatName, read case-insensitively, and its fallback for every other name. */
  lemma FormatNameBySuffix(fileName: string)
    ensures EndsWith(Lower(fileName), ".jpg") || EndsWith(Lower(fileName), ".jpeg") ==> FormatName(fileName) == "jpg"
    ensures EndsWith(Lower(fileName), ".png") ==> FormatName(fileName) == "png"
    ensures EndsWith(Lower(fileName), ".bmp") ==> FormatName(fileName) == "bmp"
    ensures EndsWith(Lower(fileName), ".gif") ==> FormatName(fileName) == "gif"
    ensures !IsImageName(fileName) ==> FormatName(fileName) == "jpg"
  {
    var name := Lower(fileName);
    if EndsWith(name, ".png") { FormatMatchesExtension(fileName, ".png"); }
    if EndsWith(name, ".bmp") { FormatMatchesExtension(fileName, ".bmp"); }
    if EndsWith(name, ".gif") { FormatMatchesExtension(fileName, ".gif"); }
    if EndsWith(name, ".jpg") { FormatMatchesExtension(fileName, ".jpg"); }
    if EndsWith(name, ".jpeg") { FormatMatchesExtension(fileName, ".jpeg"); }
  }

  /** Names with a listed extension, in any letter case, are images. */
  lemma ImageNameExamples()
    ensures IsImageName("a.png") && IsImageName("PHOTO.JPEG") && IsImageName("sub.Gif")
  {
    LowerPng();
    FormatMatchesExtension("a.png", ".png");
    LowerJpeg();
    FormatMatchesExtension("PHOTO.JPEG", ".jpeg");
    LowerGif();
    FormatMatchesExtension("sub.Gif", ".gif");
  }

  lemma LowerPng()
    ensures EndsWith(Lower("a.png"), ".png")
  {
    assert Lower("a.png") == "a.png";
  }

  lemma LowerJpeg()
    ensures EndsWith(Lower("PHOTO.JPEG"), ".jpeg")
  {
    assert Lower("PHOTO.JPEG") == "photo.jpeg";
  }

  lemma LowerGif()
    ensures EndsWith(Lower("sub.Gif"), ".gif")
  {
    assert Lower("sub.Gif") == "sub.gif";
  }

  /** A text file is not an image. */
  lemma TextFileIsNotImage()
    ensures !IsImageName("b.txt")
  {
    var name := Lower("b.txt");
    assert name[|name| - 1] == 't';
    forall ext | ext in ImageExtensions
      ensures !EndsWith(name, ext)
    {
      if EndsWith(name, ext) { LastTwo(name, ext); }
    }
  }
}
