/** File-name arithmetic: `os.path.join` and the output-name rewrite shared by the file managers. */
module Paths {
  import Text

  /** `os.path.join(a, b)` on POSIX. */
  function PathJoin(a: string, b: string): string
  {
    if |b| > 0 && b[0] == '/' then b
    else if |a| == 0 || a[|a| - 1] == '/' then a + b
    else a + "/" + b
  }

  /** `path.split("/")[-1]`: the text after the last slash. */
  function LastComponent(path: string): string
  {
    path[Text.LastIndexOf(path, '/') + 1..]
  }

  /** The last component holds no slash, ends `path`, and follows a slash unless it is all of `path`. */
  lemma LastComponentShape(path: string)
    ensures var r := LastComponent(path);
      && '/' !in r
      && |r| <= |path| && path == path[..|path| - |r|] + r
      && (|r| < |path| ==> path[|path| - |r| - 1] == '/')
  {
    var k := Text.LastIndexOf(path, '/');
    Text.NoneAfterLastIndex(path, '/');
    assert path == path[..k + 1] + path[k + 1..];
  }

  /** `name.rsplit(".", 1)[0]`: the name without its final dot-suffix. */
  function Stem(name: string): string
  {
    var k := Text.LastIndexOf(name, '.');
    if k < 0 then name else name[..k]
  }

  /** A dotted name is its stem, the last dot and a dot-free suffix; a dotless name is its own stem. */
  lemma StemShape(name: string)
    ensures var r := Stem(name);
      && ('.' in name ==> |r| < |name| && name == r + "." + name[|r| + 1..] && '.' !in name[|r| + 1..])
      && ('.' !in name ==> r == name)
  {
    var k := Text.LastIndexOf(name, '.');
    Text.NoneAfterLastIndex(name, '.');
    if k >= 0 {
      assert name == name[..k] + "." + name[k + 1..];
    }
  }

  /** `path.split("/")[-1].rsplit(".", 1)[0] + ext`: the output name built from an input path. */
  function OutputName(path: string, ext: string): string
  {
    Stem(LastComponent(path)) + ext
  }

  /** The last component of `dir + name` is `name` when `dir` is empty or ends in a slash. */
  lemma LastComponentAfterSlash(dir: string, name: string)
    requires |dir| == 0 || dir[|dir| - 1] == '/'
    requires '/' !in name
    ensures LastComponent(dir + name) == name
  {
    if |dir| > 0 {
      Text.LastIndexOfBeforeFreeSuffix(dir, name, '/');
    } else {
      assert dir + name == name;
    }
  }

  /** Joining a slash-free name onto any directory leaves that name as the last component. */
  lemma LastComponentOfJoin(dir: string, name: string)
    requires '/' !in name
    ensures LastComponent(PathJoin(dir, name)) == name
  {
    if |dir| == 0 || dir[|dir| - 1] == '/' {
      LastComponentAfterSlash(dir, name);
    } else {
      LastComponentAfterSlash(dir + "/", name);
    }
  }

  /** The stem of `stem + "." + suffix` is `stem` when the suffix has no dot. */
  lemma StemOfDotted(stem: string, suffix: string)
    requires '.' !in suffix
    ensures Stem(stem + "." + suffix) == stem
  {
    Text.LastIndexOfBeforeFreeSuffix(stem + ".", suffix, '.');
    assert (stem + "." + suffix)[..|stem|] == stem;
  }

  /** Only the directory part and the last extension are dropped: `dir/a.b.c` becomes `a.b` + ext. */
  lemma OutputNameReplacesLastExtension(dir: string, stem: string, suffix: string, ext: string)
    requires |dir| == 0 || dir[|dir| - 1] == '/'
    requires '/' !in stem && '/' !in suffix && '.' !in suffix
    ensures OutputName(dir + (stem + "." + suffix), ext) == stem + ext
  {
    LastComponentAfterSlash(dir, stem + "." + suffix);
    StemOfDotted(stem, suffix);
  }

  /** A base name without any dot is kept whole in front of the new extension. */
  lemma OutputNameKeepsDotlessName(dir: string, name: string, ext: string)
    requires |dir| == 0 || dir[|dir| - 1] == '/'
    requires '/' !in name && '.' !in name
    ensures OutputName(dir + name, ext) == name + ext
  {
    LastComponentAfterSlash(dir, name);
  }

  /** The output name never contains a slash coming from the input path. */
  lemma StemHasNoSlash(path: string)
    ensures '/' !in Stem(LastComponent(path))
  {
    var last := LastComponent(path);
    LastComponentShape(path);
    var k := Text.LastIndexOf(last, '.');
    if k >= 0 {
      var stem := last[..k];
      forall i | 0 <= i < |stem|
        ensures stem[i] != '/'
      {
        assert stem[i] == last[i];
      }
    }
  }

  /** Renaming an output name again with the same extension changes nothing. */
  lemma OutputNameIdempotent(path: string, suffix: string)
    requires '/' !in suffix && '.' !in suffix
    ensures OutputName(OutputName(path, "." + suffix), "." + suffix) == OutputName(path, "." + suffix)
  {
    var stem := Stem(LastComponent(path));
    StemHasNoSlash(path);
    var once := OutputName(path, "." + suffix);
    assert once == "" + (stem + "." + suffix);
    OutputNameReplacesLastExtension("", stem, suffix, "." + suffix);
  }
}
