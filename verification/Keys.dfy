/** Object keys and the names derived from them: `after_zip_separator`,
    `extension_of`, `is_apple_double_basename`. A key has no trailing `/`. */
module Keys {
  import opened Wrappers
  import opened Text

  /** The part of a key after its last `!` zip-member separator. */
  function AfterZip(key: string): string {
    Partial(key, '!')
  }

  function FileName(path: string): string {
    Partial(path, '/')
  }

  /** `Path::file_stem` and `Path::extension`: a leading dot starts no extension. */
  function SplitExtension(name: string): (r: (string, Option<string>)) {
    var ext := Partial(name, '.');
    if |ext| + 1 >= |name| || name == ".." then (name, None)
    else (name[..|name| - |ext| - 1], Some(ext))
  }

  lemma ExtensionIsLast(stem: string, ext: string)
    requires stem != "" && '.' !in ext && stem + "." + ext != ".."
    ensures SplitExtension(stem + "." + ext) == (stem, Some(ext))
  {
    var name := stem + "." + ext;
    PlainIsPartial(ext, '.');
    SplitAt(stem, ext, '.');
    assert name == stem + ['.'] + ext;
    assert name[..|name| - |ext| - 1] == stem;
  }

  lemma NoExtension(name: string)
    requires '.' !in name
    ensures SplitExtension(name) == (name, None) && SplitExtension("." + name) == ("." + name, None)
  {
    PlainIsPartial(name, '.');
    SplitAt("", name, '.');
    assert "." + name == "" + ['.'] + name;
  }

  function LowerAscii(s: string): string {
    seq(|s|, i requires 0 <= i < |s| => if 'A' <= s[i] <= 'Z' then (s[i] as int + 32) as char else s[i])
  }

  function ExtensionOf(key: string): string {
    match SplitExtension(FileName(AfterZip(key))).1
    case Some(ext) => LowerAscii(ext)
    case None => "(none)"
  }

  predicate IsZip(key: string) {
    ExtensionOf(key) == "zip"
  }

  /** A member's name is what follows the last separator of its key, and the last
      slash after it. */
  lemma MemberName(zip: string, dir: string, name: string)
    requires '!' !in dir && '!' !in name && '/' !in name
    ensures FileName(AfterZip(zip + "!" + (dir + "/" + name))) == name
    ensures FileName(AfterZip(zip + "!" + name)) == name && FileName(AfterZip(dir + "/" + name)) == name
  {
    hide Partial, Done;
    var member := dir + "/" + name;
    assert member == dir + ['/'] + name;
    SplitAt(dir, name, '/');
    PlainIsPartial(name, '/');
    PlainIsPartial(member, '!');
    PlainIsPartial(name, '!');
    SplitAt(zip, member, '!');
    SplitAt(zip, name, '!');
    assert zip + "!" + member == zip + ['!'] + member && zip + "!" + name == zip + ['!'] + name;
  }

  /** A zip is told by its name's last extension, in either case. */
  lemma ZipByExtension(key: string, stem: string, ext: string)
    requires FileName(AfterZip(key)) == stem + "." + ext
    requires stem != "" && '.' !in ext && stem + "." + ext != ".."
    ensures IsZip(key) <==> |ext| == 3 && ext[0] in "zZ" && ext[1] in "iI" && ext[2] in "pP"
  {
    hide SplitExtension, FileName, AfterZip, LowerAscii;
    ExtensionIsLast(stem, ext);
    LowersToZip(ext);
  }

  lemma LowersToZip(ext: string)
    ensures LowerAscii(ext) == "zip" <==> |ext| == 3 && ext[0] in "zZ" && ext[1] in "iI" && ext[2] in "pP"
  {
    var low := LowerAscii(ext);
    if |ext| == 3 {
      assert low == "zip" <==> low[0] == 'z' && low[1] == 'i' && low[2] == 'p';
      assert low[0] == 'z' <==> ext[0] in "zZ";
      assert low[1] == 'i' <==> ext[1] in "iI";
      assert low[2] == 'p' <==> ext[2] in "pP";
    }
  }

  lemma NoExtensionIsNoZip(key: string)
    requires '.' !in FileName(AfterZip(key))
    ensures ExtensionOf(key) == "(none)" && !IsZip(key)
  {
    NoExtension(FileName(AfterZip(key)));
  }

  predicate IsAppleDouble(key: string) {
    "._" <= FileName(key)
  }
}
