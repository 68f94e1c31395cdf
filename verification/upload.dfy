/**
 * The file-name check applied to an uploaded payment proof (`allowed_file`):
 * a name passes when it contains a '.' and the text after the LAST '.',
 * lower-cased, is one of the four image extensions.
 */
module Upload {
  import opened Wrappers

  const AllowedExtensions: set<string> := {"png", "jpg", "jpeg", "gif"}

  /** Position of the last occurrence of `c` in `s`, if any. */
  function LastIndexOf(s: string, c: char): (r: Option<nat>)
    ensures r.Some? ==> r.value < |s| && s[r.value] == c
    ensures r.Some? ==> forall j :: r.value < j < |s| ==> s[j] != c
    ensures r.None? ==> forall j :: 0 <= j < |s| ==> s[j] != c
  {
    if |s| == 0 then None
    else if s[|s| - 1] == c then Some(|s| - 1)
    else LastIndexOf(s[..|s| - 1], c)
  }

  /** ASCII case folding of one character, as str.lower() does for 'A'..'Z'. */
  function LowerChar(c: char): char
  {
    if 'A' <= c <= 'Z' then (c as int + 32) as char else c
  }

  function Lower(s: string): (r: string)
    ensures |r| == |s|
    ensures forall i :: 0 <= i < |s| ==> r[i] == LowerChar(s[i])
  {
    if s == [] then [] else [LowerChar(s[0])] + Lower(s[1..])
  }

  /** `filename.rsplit('.', 1)[1]`: the text after the last '.', when there is one. */
  function Extension(filename: string): (r: Option<string>)
    ensures r.None? <==> '.' !in filename
    ensures r.Some? ==> '.' !in r.value
    ensures r.Some? ==> |r.value| < |filename| && filename[|filename| - |r.value| - 1] == '.'
    ensures r.Some? ==> r.value == filename[|filename| - |r.value|..]
  {
    match LastIndexOf(filename, '.')
    case None => None
    case Some(i) => Some(filename[i + 1..])
  }

  /** Only a name ending in '.' and a three- or four-letter extension can pass. */
  predicate AllowedFile(filename: string)
    ensures AllowedFile(filename) ==> '.' in filename
    ensures AllowedFile(filename) ==> 4 <= |filename|
    ensures AllowedFile(filename) ==>
      filename[|filename| - 4] == '.' || (5 <= |filename| && filename[|filename| - 5] == '.')
  {
    match Extension(filename)
    case None => false
    case Some(ext) => Lower(ext) in AllowedExtensions
  }

  /**
   * `allowed_file` accepts a name exactly when some '.' in it is followed
   * only by dot-free text whose lower-cased form is an allowed extension.
   */
  lemma {:induction false} AllowedFileIff(filename: string)
    ensures AllowedFile(filename) <==>
      exists i :: 0 <= i < |filename| && filename[i] == '.' &&
        '.' !in filename[i + 1..] && Lower(filename[i + 1..]) in AllowedExtensions
  {
    match LastIndexOf(filename, '.')
    case None =>
    case Some(k) =>
      assert filename[k + 1..] == Extension(filename).value;
  }

  /** Upper-case extensions pass, and only the text after the last '.' is tested. */
  lemma AllowedFileAccepts()
    ensures AllowedFile("slip.JPG")
    ensures AllowedFile("scan.pdf.png")
  {
    assert Extension("slip.JPG") == Some("JPG");
    assert Lower("JPG") == "jpg";
    assert Extension("scan.pdf.png") == Some("png");
    assert Lower("png") == "png";
  }

  /** Other extensions, a name without a '.' and an empty extension fail. */
  lemma AllowedFileRejects()
    ensures !AllowedFile("slip.pdf")
    ensures !AllowedFile("png")
    ensures !AllowedFile("photo.png.")
  {
    assert Extension("slip.pdf") == Some("pdf");
    assert Lower("pdf") == "pdf";
    assert Extension("photo.png.") == Some("");
  }
}
