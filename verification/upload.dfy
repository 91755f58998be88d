/** The check an uploaded receipt image passes before it is stored: its file
    name must end in one of the accepted image extensions, in any letter case. */
module Upload {
  import opened Common

  /** The accepted extensions, lower case. */
  const Extensions: set<string> := {"png", "jpg", "jpeg", "gif", "bmp", "webp"}

  /** An ASCII letter in lower case; every other character unchanged. */
  function LowerChar(c: char): (r: char)
    ensures 'A' <= c <= 'Z' ==> 'a' <= r <= 'z'
    ensures !('A' <= c <= 'Z') ==> r == c
  {
    if 'A' <= c <= 'Z' then (c as int + 32) as char else c
  }

  /** `s.lower()`, for ASCII letters: no upper-case letter is left, every
      upper-case letter becomes the lower-case letter at the same place in the
      alphabet, and every other character stays. */
  function Lower(s: string): (r: string)
    ensures |r| == |s|
    ensures forall i :: 0 <= i < |r| ==> !('A' <= r[i] <= 'Z')
    ensures forall i :: 0 <= i < |s| && 'A' <= s[i] <= 'Z' ==> r[i] as int - 'a' as int == s[i] as int - 'A' as int
    ensures forall i :: 0 <= i < |s| && !('A' <= s[i] <= 'Z') ==> r[i] == s[i]
  {
    seq(|s|, i requires 0 <= i < |s| => LowerChar(s[i]))
  }

  /** `allowed_file`: the name holds a dot and the text after its last dot,
      lower-cased, is an accepted extension. */
  predicate AllowedFile(filename: string)
  {
    '.' in filename && Lower(AfterLast(filename, '.')) in Extensions
  }

  /** Lower-casing twice is lower-casing once. */
  lemma LowerTwice(s: string)
    ensures Lower(Lower(s)) == Lower(s)
  {
    assert forall i :: 0 <= i < |s| ==> LowerChar(LowerChar(s[i])) == LowerChar(s[i]);
  }

  /** Lower-casing leaves dots where they are. */
  lemma LowerKeepsDots(s: string)
    ensures '.' in Lower(s) <==> '.' in s
  {
    if '.' in Lower(s) {
      var i :| 0 <= i < |s| && Lower(s)[i] == '.';
      assert s[i] == '.';
    }
    if '.' in s {
      var i :| 0 <= i < |s| && s[i] == '.';
      assert Lower(s)[i] == '.';
    }
  }

  /** A name built from a base, a dot and a dot-free extension is accepted
      exactly when the extension, lower-cased, is an accepted one, whatever
      the base holds (dots included). */
  lemma AllowedName(base: string, ext: string)
    requires '.' !in ext
    ensures AllowedFile(base + "." + ext) <==> Lower(ext) in Extensions
  {
    RSplitOfJoin(base, '.', ext);
  }

  /** An accepted name is a base, a dot and an accepted extension with no dot in it. */
  lemma AllowedSplits(filename: string)
    requires AllowedFile(filename)
    ensures exists base, ext :: filename == base + "." + ext && '.' !in ext && Lower(ext) in Extensions
  {
    RSplitRoundTrip(filename, '.');
    var base, ext := BeforeLast(filename, '.'), AfterLast(filename, '.');
    assert filename == base + "." + ext;
  }

  /** The letter case of the extension does not matter. */
  lemma CaseInsensitive(base: string, ext: string)
    requires '.' !in ext
    ensures AllowedFile(base + "." + ext) <==> AllowedFile(base + "." + Lower(ext))
  {
    LowerKeepsDots(ext);
    AllowedName(base, ext);
    AllowedName(base, Lower(ext));
    LowerTwice(ext);
  }

  /** Only the last extension counts: a double extension such as `.png.exe` is refused. */
  lemma DoubleExtensionRefused()
    ensures !AllowedFile("receipt.png.exe")
  {
    ExeRefused();
    AllowedName("receipt.png", "exe");
    assert "receipt.png" + "." + "exe" == "receipt.png.exe";
  }

  /** `exe`, in any case, is not an accepted extension. */
  lemma ExeRefused()
    ensures Lower("exe") !in Extensions
  {
    assert Lower("exe") == "exe";
  }

  /** An upper-case extension such as `.JPG` is accepted. */
  lemma UpperCaseAccepted()
    ensures AllowedFile("receipt.JPG")
  {
    var name, ext := "receipt.JPG", "JPG";
    assert name == "receipt" + "." + ext;
    JpgAccepted();
    AllowedName("receipt", ext);
  }

  /** `JPG` lower-cases to the accepted `jpg`. */
  lemma JpgAccepted()
    ensures Lower("JPG") in Extensions
  {
    var r := Lower("JPG");
    assert r[0] == 'j' && r[1] == 'p' && r[2] == 'g';
    assert r == "jpg";
  }
}
