/**
 File-name arithmetic on POSIX paths: `os.path.splitext` (used to choose a
 reader in the inconsistency finder and the document chatbot) and pathlib's
 `name`, `suffix` and `stem` (used by the summary script).
 */
module Paths {
  import opened Wrappers
  import opened Text

  /** The last component of a path: everything after the last '/'. */
  function BaseName(path: string): (r: string)
    ensures '/' !in r
    ensures EndsWith(path, r)
    ensures r == path || path[|path| - |r| - 1] == '/'
  {
    match LastIndexOf(path, '/')
    case None => path
    case Some(i) => path[i + 1..]
  }

  predicate HasNonDot(s: string) {
    exists i :: 0 <= i < |s| && s[i] != '.'
  }

  /**
   `os.path.splitext(path)[1]`: from the last '.' of the last component,
   unless only dots precede that '.' in the component (".bashrc" has no
   extension).
   */
  function SplitExt(path: string): (r: string)
    ensures r == "" || (r[0] == '.' && '.' !in r[1..] && '/' !in r)
    ensures EndsWith(path, r)
  {
    var name := BaseName(path);
    var ext := NameExt(name);
    EndsWithTransitive(path, name, ext);
    ext
  }

  /** The extension of a single path component, as `os.path.splitext` finds it. */
  function NameExt(name: string): (r: string)
    requires '/' !in name
    ensures r == "" || (r[0] == '.' && '.' !in r[1..] && '/' !in r)
    ensures EndsWith(name, r)
  {
    match LastIndexOf(name, '.')
    case None => ""
    case Some(d) =>
      if HasNonDot(name[..d]) then
        assert name[d..][1..] == name[d + 1..];
        assert forall c :: c in name[d..] ==> c in name;
        name[d..]
      else ""
  }

  lemma EndsWithTransitive(a: string, b: string, c: string)
    requires EndsWith(a, b) && EndsWith(b, c)
    ensures EndsWith(a, c)
  {
    assert a[|a| - |c|..] == a[|a| - |b|..][|b| - |c|..];
  }

  /** The last component of `dir + "/" + name` is `name`. */
  lemma BaseNameOf(dir: string, name: string)
    requires '/' !in name
    ensures BaseName(dir + "/" + name) == name
  {
    var p := dir + "/" + name;
    var d := |dir|;
    assert p[d] == '/' && p[d + 1..] == name;
  }

  /** A stem with a character other than '.', followed by a '.' and no further '.', splits at that '.'. */
  lemma NameExtOf(stem: string, ext: string)
    requires '/' !in stem && HasNonDot(stem)
    requires |ext| > 0 && ext[0] == '.' && '.' !in ext[1..] && '/' !in ext
    ensures NameExt(stem + ext) == ext
  {
    var p := stem + ext;
    var d := |stem|;
    assert p[d] == '.' && p[d + 1..] == ext[1..];
    assert p[..d] == stem && p[d..] == ext;
  }

  /**
   `os.path.splitext` finds the extension of a last component whose stem has
   a character other than '.', under any directory or none.
   */
  lemma SplitExtOf(dir: string, stem: string, ext: string)
    requires '/' !in stem && HasNonDot(stem)
    requires |ext| > 0 && ext[0] == '.' && '.' !in ext[1..] && '/' !in ext
    ensures SplitExt(dir + "/" + stem + ext) == ext
    ensures SplitExt(stem + ext) == ext
  {
    NameExtOf(stem, ext);
    var name := stem + ext;
    assert dir + "/" + stem + ext == dir + "/" + name;
    BaseNameOf(dir, name);
    assert LastIndexOf(name, '/').None?;
  }

  /** A component made of dots and one trailing extension-like part has no extension. */
  lemma LeadingDotsAreNotExtension(dots: string, rest: string)
    requires forall i :: 0 <= i < |dots| ==> dots[i] == '.'
    requires '.' !in rest && '/' !in rest
    ensures SplitExt(dots + "." + rest) == ""
  {
    var p := dots + "." + rest;
    assert BaseName(p) == p;
    var d := |dots|;
    assert p[d] == '.';
    assert p[d + 1..] == rest;
    assert LastIndexOf(p, '.') == Some(d);
    assert p[..d] == dots;
  }

  /** The index pathlib treats as the start of the suffix of a name, if any. */
  function SuffixStart(name: string): (r: Option<nat>)
    ensures r.Some? ==> 0 < r.value < |name| - 1 && name[r.value] == '.' && '.' !in name[r.value + 1..]
  {
    match LastIndexOf(name, '.')
    case None => None
    case Some(i) => if 0 < i < |name| - 1 then Some(i) else None
  }

  /** `Path(path).suffix` (Python 3.12). */
  function Suffix(path: string): (r: string)
    ensures r == "" || (|r| >= 2 && r[0] == '.' && '.' !in r[1..] && '/' !in r)
  {
    NameSuffix(BaseName(path))
  }

  /** `Path(path).stem` (Python 3.12). */
  function Stem(path: string): (r: string)
    ensures '/' !in r
  {
    NameStem(BaseName(path))
  }

  /** The suffix of a last component `name`. */
  function NameSuffix(name: string): (r: string)
    ensures r == "" || (|r| >= 2 && r[0] == '.' && '.' !in r[1..])
    ensures '/' !in name ==> '/' !in r
  {
    match SuffixStart(name)
    case None => ""
    case Some(i) => name[i..]
  }

  /** The stem of a last component `name`. */
  function NameStem(name: string): (r: string)
    ensures '/' !in name ==> '/' !in r
  {
    match SuffixStart(name)
    case None => name
    case Some(i) => name[..i]
  }

  /** A name is its stem followed by its suffix. */
  lemma StemSuffix(path: string)
    ensures Stem(path) + Suffix(path) == BaseName(path)
  {
    NameSplits(BaseName(path));
  }

  lemma NameSplits(name: string)
    ensures NameStem(name) + NameSuffix(name) == name
  {
    match SuffixStart(name)
    case None =>
    case Some(i) => assert name[..i] + name[i..] == name;
  }

  /** A name made of a stem and a suffix ".ext" (an extension without dots) splits back into them. */
  lemma NameWithSuffix(stem: string, suffix: string)
    requires |stem| > 0 && '/' !in stem
    requires |suffix| > 1 && suffix[0] == '.' && '/' !in suffix && '.' !in suffix[1..]
    ensures Suffix(stem + suffix) == suffix
    ensures Stem(stem + suffix) == stem
  {
    var p := stem + suffix;
    assert BaseName(p) == p;
    var d := |stem|;
    assert p[d] == '.';
    assert p[d + 1..] == suffix[1..];
    assert LastIndexOf(p, '.') == Some(d);
    assert SuffixStart(p) == Some(d);
    assert p[..d] == stem;
    assert p[d..] == suffix;
  }
}
