/**
 * The image allow-list used by `upload` and `upload_profile_picture`: the extension is what
 * follows the last '.', lower-cased, or empty when the name has no '.'.
 */
module Attachments {
  import opened Text

  const AllowedExtensions: set<string> := {"png", "jpg", "jpeg", "gif", "webp"}

  /** `name.rsplit('.', 1)[1]`: the text after the last '.'. */
  function AfterLastDot(name: string): (r: string)
    requires '.' in name
    ensures '.' !in r
    ensures |r| < |name| && name[|name| - |r| - 1] == '.' && r == name[|name| - |r|..]
  {
    var n := |name| - 1;
    if name[n] == '.' then ""
    else
      assert '.' in name[..n] by {
        var k :| 0 <= k < |name| && name[k] == '.';
        assert k < n && name[..n][k] == '.';
      }
      AfterLastDot(name[..n]) + [name[n]]
  }

  /** The extension the handlers test: empty when the name has no '.'. */
  function Extension(name: string): (e: string)
    ensures '.' !in e
    ensures |e| < |name| || e == ""
  {
    if '.' in name then ToLower(AfterLastDot(name)) else ""
  }

  predicate IsAllowedImage(name: string): (ok: bool)
    ensures ok ==> '.' in name && |Extension(name)| >= 3
  {
    Extension(name) in AllowedExtensions
  }

  /** Splitting a name at a '.' with no '.' after it: `rsplit` returns exactly the part after it. */
  lemma {:induction false} AfterLastDotOfSplit(stem: string, ext: string)
    requires '.' !in ext
    ensures '.' in stem + "." + ext
    ensures AfterLastDot(stem + "." + ext) == ext
  {
    var name := stem + "." + ext;
    assert name[|stem|] == '.';
    if ext != [] {
      var n := |ext| - 1;
      assert name[..|name| - 1] == stem + "." + ext[..n];
      assert name[|name| - 1] == ext[n];
      AfterLastDotOfSplit(stem, ext[..n]);
      assert ext == ext[..n] + [ext[n]];
    }
  }

  lemma ExtensionOfSplit(stem: string, ext: string)
    requires '.' !in ext
    ensures Extension(stem + "." + ext) == ToLower(ext)
  {
    AfterLastDotOfSplit(stem, ext);
  }

  /** A name without any '.' has the empty extension and is rejected. */
  lemma NoDotRejected(name: string)
    requires '.' !in name
    ensures Extension(name) == "" && !IsAllowedImage(name)
  {
  }

  /** Lower-casing the name lower-cases the part after its last '.' and moves no '.'. */
  lemma AfterLastDotLower(name: string)
    requires '.' in name
    ensures '.' in ToLower(name) && AfterLastDot(ToLower(name)) == ToLower(AfterLastDot(name))
  {
    var ext := AfterLastDot(name);
    var stem := name[..|name| - |ext| - 1];
    assert name == stem + "." + ext;
    assert ToLower(name) == ToLower(stem) + "." + ToLower(ext);
    assert '.' !in ToLower(ext) by {
      forall k | 0 <= k < |ext| ensures ToLower(ext)[k] != '.' {
        assert ext[k] != '.';
      }
    }
    AfterLastDotOfSplit(ToLower(stem), ToLower(ext));
  }

  /** Whether a name is accepted does not depend on its casing. */
  lemma AllowedIgnoresCase(name: string)
    ensures IsAllowedImage(ToLower(name)) == IsAllowedImage(name)
  {
    if '.' in name {
      AfterLastDotLower(name);
      ToLowerIdempotent(AfterLastDot(name));
    } else {
      assert '.' !in ToLower(name);
    }
  }

  /** An upper-case extension is accepted. */
  lemma UpperCaseAccepted()
    ensures IsAllowedImage("X.JPG")
  {
    ExtensionOfSplit("X", "JPG");
    assert "X" + "." + "JPG" == "X.JPG";
    assert ToLower("JPG") == "jpg";
  }

  /** Only the last extension counts: an archive with an inner extension is rejected. */
  lemma DoubleExtensionRejected()
    ensures !IsAllowedImage("a.tar.gz")
  {
    ExtensionOfSplit("a.tar", "gz");
    assert "a.tar" + "." + "gz" == "a.tar.gz";
    assert ToLower("gz") == "gz";
  }

  /** A name ending in '.' has the empty extension and is rejected. */
  lemma TrailingDotRejected()
    ensures !IsAllowedImage("a.")
  {
    ExtensionOfSplit("a", "");
    assert "a" + "." + "" == "a.";
  }

  /** A name without a '.', and an executable, are rejected. */
  lemma NonImagesRejected()
    ensures !IsAllowedImage("noext")
    ensures !IsAllowedImage("setup.exe")
  {
    NoDotRejected("noext");
    ExtensionOfSplit("setup", "exe");
    assert "setup" + "." + "exe" == "setup.exe";
    assert ToLower("exe") == "exe";
  }
}
